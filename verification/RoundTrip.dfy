/** Printing a filter and parsing it again gives the same filter, with the
    operators LDAP lacks rewritten. */
module RoundTrip {
  import opened Text
  import opened Filter

  /******* Escapes *******/

  function HexValue(c: char): Option<nat> {
    if '0' <= c <= '9' then Some(c as int - '0' as int)
    else if 'a' <= c <= 'f' then Some(c as int - 'a' as int + 10)
    else if 'A' <= c <= 'F' then Some(c as int - 'A' as int + 10)
    else None
  }

  /** A backslash and two hexadecimal digits. */
  predicate IsEscape(s: string) {
    |s| >= 3 && s[0] == '\\' && HexValue(s[1]).Some? && HexValue(s[2]).Some?
  }

  /** What a server reads: an escape is the character with that code. */
  function Decoded(s: string): string {
    if s == "" then ""
    else if IsEscape(s) then [(16 * HexValue(s[1]).value + HexValue(s[2]).value) as char] + Decoded(s[3..])
    else [s[0]] + Decoded(s[1..])
  }

  lemma EscapedCharDecodes(c: char, rest: string)
    ensures Decoded(EscapedChar(c) + rest) == [c] + Decoded(rest)
  {
    var t := EscapedChar(c);
    var s := t + rest;
    if |t| == 3 {
      assert s[0] == t[0] && s[1] == t[1] && s[2] == t[2];
      assert s[3..] == rest;
    } else {
      assert s[1..] == rest && s[0] == c;
    }
  }

  /** An escaped text is read back as the text, whatever it holds. */
  lemma {:induction false} EscapedDecodes(s: string)
    ensures Decoded(Escaped(s)) == s
  {
    if s != "" {
      EscapedCharDecodes(s[0], Escaped(s[1..]));
      EscapedDecodes(s[1..]);
    }
  }

  /** Nothing in it means anything to the server but the escapes. */
  lemma {:induction false} EscapedIsSafe(s: string)
    ensures forall c :: c in Escaped(s) ==> c != '*' && c != '(' && c != ')' && c != '\0'
    ensures forall i :: 0 <= i < |Escaped(s)| && Escaped(s)[i] == '\\' ==> IsEscape(Escaped(s)[i..])
  {
    if s != "" {
      EscapedIsSafe(s[1..]);
      EscapedCharIsSafe(s[0], Escaped(s[1..]));
    }
  }

  lemma EscapedCharIsSafe(c: char, rest: string)
    requires forall d :: d in rest ==> d != '*' && d != '(' && d != ')' && d != '\0'
    requires forall i :: 0 <= i < |rest| && rest[i] == '\\' ==> IsEscape(rest[i..])
    ensures forall d :: d in EscapedChar(c) + rest ==> d != '*' && d != '(' && d != ')' && d != '\0'
    ensures forall i :: 0 <= i < |EscapedChar(c) + rest| && (EscapedChar(c) + rest)[i] == '\\' ==>
              IsEscape((EscapedChar(c) + rest)[i..])
  {
    var t := EscapedChar(c);
    var s := t + rest;
    forall i | 0 <= i < |s| && s[i] == '\\' ensures IsEscape(s[i..]) {
      if i >= |t| {
        assert s[i..] == rest[i - |t|..];
      } else {
        assert i == 0 && |t| == 3;
        assert s[i..] == s && s[1] == t[1] && s[2] == t[2];
      }
    }
  }

  /******* Balanced text *******/

  /** From nesting depth `d` the text never closes more than is open, and ends
      with nothing open. */
  predicate Balanced(s: string, d: nat) {
    if s == "" then d == 0
    else if s[0] == '(' then Balanced(s[1..], d + 1)
    else if s[0] == ')' then d > 0 && Balanced(s[1..], d - 1)
    else Balanced(s[1..], d)
  }

  /** The text closes depth `d` with its last character and not before. */
  predicate Closes(s: string, d: nat) {
    if s == "" || d == 0 then false
    else if s[0] == '(' then Closes(s[1..], d + 1)
    else if s[0] == ')' then (if d == 1 then |s| == 1 else Closes(s[1..], d - 1))
    else Closes(s[1..], d)
  }

  predicate IsGroup(s: string) {
    s != "" && s[0] == '(' && Closes(s[1..], 1)
  }

  lemma {:induction false} BalancedJoin(a: string, b: string, d: nat)
    requires Balanced(a, d) && Balanced(b, 0)
    ensures Balanced(a + b, d)
    decreases |a|
  {
    if a == "" {
      assert a + b == b;
    } else {
      assert (a + b)[1..] == a[1..] + b;
      BalancedJoin(a[1..], b, if a[0] == '(' then d + 1 else if a[0] == ')' then d - 1 else d);
    }
  }

  lemma {:induction false} BalancedCloses(s: string, d: nat)
    requires Balanced(s, d)
    ensures Closes(s + ")", d + 1)
    decreases |s|
  {
    if s == "" {
      assert s + ")" == ")";
    } else {
      assert (s + ")")[1..] == s[1..] + ")";
      BalancedCloses(s[1..], if s[0] == '(' then d + 1 else if s[0] == ')' then d - 1 else d);
    }
  }

  lemma {:induction false} ClosesBalanced(s: string, d: nat)
    requires Closes(s, d)
    ensures Balanced(s, d)
    decreases |s|
  {
    if s[0] == '(' {
      ClosesBalanced(s[1..], d + 1);
    } else if s[0] == ')' {
      if d > 1 { ClosesBalanced(s[1..], d - 1); }
    } else {
      ClosesBalanced(s[1..], d);
    }
  }

  lemma Enclosed(s: string)
    requires Balanced(s, 0)
    ensures IsGroup("(" + s + ")") && Balanced("(" + s + ")", 0)
  {
    BalancedCloses(s, 0);
    assert ("(" + s + ")")[1..] == s + ")";
    ClosesBalanced(s + ")", 1);
  }

  predicate NoParentheses(s: string) {
    forall c :: c in s ==> c != '(' && c != ')'
  }

  lemma {:induction false} PlainIsBalanced(s: string)
    requires NoParentheses(s)
    ensures Balanced(s, 0)
  {
    if s != "" {
      assert s[0] in s && forall c :: c in s[1..] ==> c in s;
      PlainIsBalanced(s[1..]);
    }
  }

  /******* Splitting *******/

  lemma {:induction false} GroupsInside(s: string, tail: string, d: nat, open: string)
    requires Closes(s, d)
    ensures Groups(s + tail, d, Some(open)) == [open + s] + Groups(tail, 0, None)
    decreases |s|
  {
    assert (s + tail)[1..] == s[1..] + tail;
    if s[0] == ')' && d == 1 {
      assert s == ")" && s[1..] + tail == tail;
    } else {
      assert (open + [s[0]]) + s[1..] == open + s;
      GroupsInside(s[1..], tail, if s[0] == '(' then d + 1 else if s[0] == ')' then d - 1 else d, open + [s[0]]);
    }
  }

  /** Splitting the concatenation of groups gives back the groups, in order. */
  lemma {:induction false} SplitJoined(groups: seq<string>)
    requires forall g :: g in groups ==> IsGroup(g)
    ensures Groups(Join(groups), 0, None) == groups
  {
    if groups != [] {
      var g, rest := groups[0], Join(groups[1..]);
      assert IsGroup(g);
      assert (g + rest)[1..] == g[1..] + rest;
      GroupsInside(g[1..], rest, 1, "(");
      assert "(" + g[1..] == g;
      SplitJoined(groups[1..]);
      assert groups == [groups[0]] + groups[1..];
    }
  }

  lemma {:induction false} JoinedBalanced(groups: seq<string>)
    requires forall g :: g in groups ==> Balanced(g, 0)
    ensures Balanced(Join(groups), 0)
  {
    if groups != [] {
      JoinedBalanced(groups[1..]);
      BalancedJoin(groups[0], Join(groups[1..]), 0);
    }
  }

  /******* Leaves *******/

  predicate PlainVariable(v: string) {
    && (forall c :: c in v ==> c != '(' && c != ')' && c != '=' && c != '<' && c != '>')
    && (v != "" ==> !IsKind(v[0]))
  }

  predicate IsOperator(op: string) { op == "<=" || op == ">=" || op == "=" }

  /** A value may not hold an operator that the parser prefers to the leaf's. */
  ghost predicate NoRivalOperator(v: string, op: string) {
    && (op != "<=" ==> forall i: nat :: !Occurs(v, "<=", i))
    && (op == "=" ==> forall i: nat :: !Occurs(v, ">=", i))
  }

  ghost predicate PlainValue(v: string, op: string) {
    Balanced(v, 0) && NoRivalOperator(v, op)
  }

  lemma LeafIsGroup(variable: string, op: string, value: string)
    requires PlainVariable(variable) && IsOperator(op) && Balanced(value, 0)
    ensures IsGroup(Leaf(variable, op, value)) && Balanced(Leaf(variable, op, value), 0)
  {
    PlainIsBalanced(variable + op);
    BalancedJoin(variable + op, value, 0);
    Enclosed(variable + op + value);
    assert Leaf(variable, op, value) == "(" + (variable + op + value) + ")";
  }

  lemma OccursTwo(s: string, d: string, i: nat)
    requires |d| == 2
    ensures Occurs(s, d, i) <==> i + 2 <= |s| && s[i] == d[0] && s[i + 1] == d[1]
  {
    if i + 2 <= |s| {
      assert s[i..i + 2][0] == s[i] && s[i..i + 2][1] == s[i + 1];
      assert s[i..i + 2] == d <==> s[i] == d[0] && s[i + 1] == d[1];
    }
  }

  /** The characters of a leaf, piece by piece. */
  lemma LeafAt(variable: string, op: string, value: string, i: nat)
    requires i < |Leaf(variable, op, value)|
    ensures |Leaf(variable, op, value)| == 2 + |variable| + |op| + |value|
    ensures Leaf(variable, op, value)[i] ==
              if i == 0 then '('
              else if i <= |variable| then variable[i - 1]
              else if i <= |variable| + |op| then op[i - 1 - |variable|]
              else if i <= |variable| + |op| + |value| then value[i - 1 - |variable| - |op|]
              else ')'
  {
  }

  /** The characters before the value are those of the variable and the operator. */
  lemma OnlyInValue(variable: string, op: string, value: string, d: string, i: nat)
    requires PlainVariable(variable) && IsOperator(op)
    requires d == "<=" || (d == ">=" && op != "<=")
    requires Occurs(Leaf(variable, op, value), d, i) && d != op
    ensures var at := i - 1 - |variable| - |op|; at >= 0 && Occurs(value, d, at)
  {
    hide Leaf, Occurs;
    OccursTwo(Leaf(variable, op, value), d, i);
    LeafAt(variable, op, value, i);
    LeafAt(variable, op, value, i + 1);
    assert forall j :: 0 <= j < |variable| ==> variable[j] in variable;
    var at := i - 1 - |variable| - |op|;
    assert at >= 0;
    OccursTwo(value, d, at);
  }

  lemma OperatorAt(variable: string, op: string, value: string)
    ensures Occurs(variable + op + value, op, |variable|)
    ensures Occurs(Leaf(variable, op, value), op, 1 + |variable|)
  {
    var s := Leaf(variable, op, value);
    assert (variable + op + value)[|variable|..|variable| + |op|] == op;
    assert s[1 + |variable|..1 + |variable| + |op|] == op;
  }

  lemma LeafDelimiter(variable: string, op: string, value: string)
    requires PlainVariable(variable) && IsOperator(op) && NoRivalOperator(value, op)
    ensures Delimiter(Leaf(variable, op, value)) == op
  {
    var s := Leaf(variable, op, value);
    OperatorAt(variable, op, value);
    if op != "<=" && Find(s, "<=").Some? {
      OnlyInValue(variable, op, value, "<=", Find(s, "<=").value);
      assert false;
    }
    if op == "=" && Find(s, ">=").Some? {
      OnlyInValue(variable, op, value, ">=", Find(s, ">=").value);
      assert false;
    }
  }

  lemma LeafSplits(variable: string, op: string, value: string)
    requires PlainVariable(variable) && IsOperator(op)
    ensures SplitOnce(variable + op + value, op) == Some((variable, value))
  {
    var s := variable + op + value;
    OperatorAt(variable, op, value);
    forall i: nat | i < |variable| ensures !Occurs(s, op, i) {
      assert s[i] == variable[i] && variable[i] in variable;
      assert i + |op| <= |s| ==> s[i..i + |op|][0] == s[i];
    }
    assert s[..|variable|] == variable && s[|variable| + |op|..] == value;
  }

  lemma RivalIsPreferred(variable: string, op: string, value: string, rival: string, i: nat)
    requires IsOperator(op) && Occurs(value, rival, i)
    requires (rival == "<=" && op != "<=") || (rival == ">=" && op == "=")
    ensures Delimiter(Leaf(variable, op, value)) != op
  {
    var s := Leaf(variable, op, value);
    var at := 1 + |variable| + |op| + i;
    assert s[at..at + 2] == value[i..i + 2];
    assert Occurs(s, rival, at);
  }

  /** A leaf is read back as it was written exactly when its value holds no
      operator that the parser prefers. */
  lemma LeafParsesIff(variable: string, op: string, value: string)
    requires PlainVariable(variable) && IsOperator(op)
    ensures Parsed(Leaf(variable, op, value)) == Ok(Expression(variable, value, op, false)) <==> NoRivalOperator(value, op)
  {
    LeafStart(variable, op, value);
    if NoRivalOperator(value, op) {
      LeafDelimiter(variable, op, value);
      LeafSplits(variable, op, value);
      EqualsInLeaf(variable, op, value);
    } else if op != "<=" && exists i: nat :: Occurs(value, "<=", i) {
      var i: nat :| Occurs(value, "<=", i);
      RivalIsPreferred(variable, op, value, "<=", i);
    } else {
      var i: nat :| Occurs(value, ">=", i);
      RivalIsPreferred(variable, op, value, ">=", i);
    }
  }

  lemma LeafStart(variable: string, op: string, value: string)
    requires PlainVariable(variable) && IsOperator(op)
    ensures Stripped(Leaf(variable, op, value)) == variable + op + value
    ensures !IsKind(Start(Leaf(variable, op, value)))
  {
    var s := Leaf(variable, op, value);
    assert s[1] == (variable + op + value)[0] == if variable != "" then variable[0] else op[0];
  }

  lemma EqualsInLeaf(variable: string, op: string, value: string)
    requires IsOperator(op)
    ensures Find(Leaf(variable, op, value), "=").Some?
  {
    var s := Leaf(variable, op, value);
    var k := |variable| + |op|;
    assert s[k] == '=' && s[k..k + 1] == "=";
    assert Occurs(s, "=", k);
  }

  /******* Whole filters *******/

  /** The operator a leaf is printed with. */
  function PrintedOperator(operator: string): string {
    if operator == "<=" || operator == ">" then "<="
    else if operator == "<" || operator == ">=" then ">="
    else "="
  }

  predicate Negated(operator: string) { operator == "<" || operator == ">" || operator == "!=" }

  ghost predicate Printable(f: Filter) {
    match f
    case Conjunction(kind, filters) => IsKind(kind) && forall i :: 0 <= i < |filters| ==> Printable(filters[i])
    case Expression(variable, value, operator, escape) =>
      PlainVariable(Shown(variable, escape)) && PlainValue(Shown(value, escape), PrintedOperator(operator))
  }

  predicate Blank(f: Filter) { f.Conjunction? && f.filters == [] }

  /** Strict comparisons and `!=` become negated leaves, escaped leaves hold the
      escaped text, and empty conjunctions disappear. */
  function Normal(f: Filter): Filter {
    match f
    case Conjunction(kind, filters) => Conjunction(kind, NormalAll(filters))
    case Expression(variable, value, operator, escape) =>
      var leaf := Expression(Shown(variable, escape), Shown(value, escape), PrintedOperator(operator), false);
      if Negated(operator) then Conjunction('!', [leaf]) else leaf
  }

  function NormalAll(filters: seq<Filter>): seq<Filter> {
    if filters == [] then []
    else if Blank(filters[0]) then NormalAll(filters[1..])
    else [Normal(filters[0])] + NormalAll(filters[1..])
  }

  /** The printed forms that are not empty. */
  function Visible(filters: seq<Filter>): seq<string> {
    if filters == [] then []
    else if Blank(filters[0]) then Visible(filters[1..])
    else [Str(filters[0])] + Visible(filters[1..])
  }

  lemma {:induction false} VisibleJoined(filters: seq<Filter>)
    ensures Join(StrAll(filters)) == Join(Visible(filters))
  {
    if filters != [] {
      VisibleJoined(filters[1..]);
      assert StrAll(filters)[1..] == StrAll(filters[1..]);
    }
  }

  lemma ConjunctionText(kind: char, parts: seq<string>)
    requires IsKind(kind) && forall g :: g in parts ==> IsGroup(g) && Balanced(g, 0)
    ensures var s := "(" + [kind] + Join(parts) + ")";
            && IsGroup(s) && Balanced(s, 0)
            && Start(s) == kind && Groups(Stripped(s)[1..], 0, None) == parts
  {
    var s := "(" + [kind] + Join(parts) + ")";
    assert Stripped(s) == [kind] + Join(parts) && Stripped(s)[1..] == Join(parts);
    SplitJoined(parts);
    JoinedBalanced(parts);
    PlainIsBalanced([kind]);
    BalancedJoin([kind], Join(parts), 0);
    Enclosed([kind] + Join(parts));
    assert s == "(" + ([kind] + Join(parts)) + ")";
  }

  lemma NegatedLeaf(leaf: string, f: Filter)
    requires IsGroup(leaf) && Balanced(leaf, 0) && Parsed(leaf) == Ok(f)
    ensures var s := "(!" + leaf + ")";
            IsGroup(s) && Balanced(s, 0) && Parsed(s) == Ok(Conjunction('!', [f]))
  {
    var s := "(" + ['!'] + Join([leaf]) + ")";
    assert [leaf][1..] == [] && Join([leaf]) == leaf;
    assert "(" + ['!'] == "(!";
    hide Balanced, IsGroup, Groups;
    ConjunctionText('!', [leaf]);
    assert |leaf| < |s| && [leaf][0] == leaf && ParsedAll([], |s|) == Ok([]);
    assert [f] + [] == [f];
    assert ParsedAll([leaf], |s|) == Ok([f]);
    GroupsAreShort(Stripped(s)[1..], 0, None);
    assert Groups(Stripped(s)[1..], 0, None) == [leaf];
  }

  lemma PrintedExpression(f: Filter)
    requires f.Expression? && Printable(f)
    ensures IsGroup(Str(f)) && Balanced(Str(f), 0)
    ensures Parsed(Str(f)) == Ok(Normal(f))
  {
    hide Parsed, Leaf, IsGroup, Balanced, Groups, Escaped;
    var variable, value, op := Shown(f.variable, f.escape), Shown(f.value, f.escape), PrintedOperator(f.operator);
    LeafParsesIff(variable, op, value);
    LeafIsGroup(variable, op, value);
    if Negated(f.operator) {
      NegatedLeaf(Leaf(variable, op, value), Expression(variable, value, op, false));
    }
  }

  /** Parsing what was printed gives the tree back in its normal form, for every
      tree whose leaves do not clash with the syntax. */
  lemma {:induction false} ParsePrinted(f: Filter)
    requires Printable(f) && !Blank(f)
    ensures IsGroup(Str(f)) && Balanced(Str(f), 0)
    ensures Parsed(Str(f)) == Ok(Normal(f))
    decreases f, 1, 0
  {
    match f
    case Expression(_, _, _, _) => PrintedExpression(f);
    case Conjunction(kind, filters) =>
      ParseVisible(filters, |Str(f)|, f);
      VisibleJoined(filters);
      ConjunctionText(kind, Visible(filters));
      assert Str(f) == "(" + [kind] + Join(Visible(filters)) + ")";
      GroupsAreShort(Stripped(Str(f))[1..], 0, None);
      ParseVisible(filters, |Str(f)|, f);
  }

  lemma {:induction false} ParseVisible(filters: seq<Filter>, n: nat, f: Filter)
    requires forall i :: 0 <= i < |filters| ==> Printable(filters[i]) && filters[i] < f
    ensures forall g :: g in Visible(filters) ==> IsGroup(g) && Balanced(g, 0)
    ensures (forall g :: g in Visible(filters) ==> |g| < n) ==> ParsedAll(Visible(filters), n) == Ok(NormalAll(filters))
    decreases f, 0, |filters|
  {
    if filters != [] {
      ParseVisible(filters[1..], n, f);
      if !Blank(filters[0]) {
        ParsePrinted(filters[0]);
        assert Visible(filters)[1..] == Visible(filters[1..]);
      }
    }
  }

  /** Escaping takes the parentheses out, so an escaped leaf needs no condition
      on them. */
  lemma {:induction false} EscapedIsPlain(s: string)
    ensures NoParentheses(Escaped(s)) && Balanced(Escaped(s), 0)
  {
    if s != "" {
      EscapedIsPlain(s[1..]);
    }
    PlainIsBalanced(Escaped(s));
  }

  /** The only parser failure on a text is a leaf without an equals sign: the
      unpacking never fails. */
  lemma {:induction false} ParseOutcome(s: string)
    requires s != ""
    ensures Parsed(s).Ok? || Parsed(s).error == InvalidSyntax
    decreases |s|, 1, 0
  {
    if IsKind(Start(s)) {
      var body := Stripped(s)[1..];
      GroupsAreShort(body, 0, None);
      ParseOutcomes(Groups(body, 0, None), |s|);
    } else if Find(s, "=").Some? {
      DelimiterSurvives(s);
    }
  }

  lemma {:induction false} ParseOutcomes(texts: seq<string>, n: nat)
    requires forall t :: t in texts ==> 0 < |t| < n
    ensures ParsedAll(texts, n).Ok? || ParsedAll(texts, n).error == InvalidSyntax
    decreases n, 0, |texts|
  {
    if texts != [] {
      ParseOutcome(texts[0]);
      ParseOutcomes(texts[1..], n);
    }
  }

  /** An occurrence that neither starts nor ends the text survives. */
  lemma OccursInside(s: string, d: string, i: nat)
    requires |s| >= 2 && d != "" && Occurs(s, d, i) && 0 < i && i + |d| < |s|
    ensures Occurs(s[1..|s| - 1], d, i - 1)
  {
    var t := s[1..|s| - 1];
    assert |t| == |s| - 2 && i - 1 + |d| <= |t|;
    forall k | 0 <= k < |d| ensures t[i - 1..i - 1 + |d|][k] == d[k] {
      assert s[i..i + |d|][k] == d[k];
    }
    assert t[i - 1..i - 1 + |d|] == d;
  }

  /** Dropping the parentheses drops no part of an operator. */
  lemma DelimiterSurvives(s: string)
    requires s != "" && Find(s, "=").Some?
    ensures Find(Stripped(s), Delimiter(s)).Some?
  {
    var d := Delimiter(s);
    var i := Find(s, d).value;
    if s[0] == '(' && s[|s| - 1] == ')' {
      assert 0 < i && i + |d| < |s| by {
        assert s[i..i + |d|][0] == s[i] && s[i..i + |d|][|d| - 1] == s[i + |d| - 1];
      }
      hide Find, Delimiter;
      OccursInside(s, d, i);
    }
  }

  /******* Meaning *******/

  /** Strict comparisons and `!=` are the negations of the others. */
  ghost predicate IsComparison(compare: (string, string, string) -> bool) {
    && (forall v, x :: compare(v, "<", x) <==> !compare(v, ">=", x))
    && (forall v, x :: compare(v, ">", x) <==> !compare(v, "<=", x))
    && (forall v, x :: compare(v, "!=", x) <==> !compare(v, "=", x))
  }

  /** Known operators, and no empty conjunction. */
  predicate Complete(f: Filter) {
    match f
    case Conjunction(_, filters) => filters != [] && forall i :: 0 <= i < |filters| ==> Complete(filters[i])
    case Expression(_, _, operator, _) => operator in ["=", "!=", "<", "<=", ">", ">="]
  }

  /** Whether the filter holds, comparing an attribute with a value. Text that is
      not escaped yet is filter syntax already, where escapes stand for characters. */
  predicate Means(f: Filter, compare: (string, string, string) -> bool) {
    match f
    case Conjunction(kind, filters) =>
      if kind == '&' then forall i :: 0 <= i < |filters| ==> Means(filters[i], compare)
      else if kind == '|' then exists i :: 0 <= i < |filters| && Means(filters[i], compare)
      else forall i :: 0 <= i < |filters| ==> !Means(filters[i], compare)
    case Expression(variable, value, operator, escape) =>
      if escape then compare(variable, operator, value) else compare(Decoded(variable), operator, Decoded(value))
  }

  /** What is printed, and read back by a server, means the same. */
  lemma {:induction false} NormalMeans(f: Filter, compare: (string, string, string) -> bool)
    requires IsComparison(compare) && Complete(f)
    ensures Means(Normal(f), compare) <==> Means(f, compare)
    decreases f
  {
    match f
    case Expression(variable, value, operator, escape) =>
      LeafMeans(f, compare);
    case Conjunction(kind, filters) =>
      NothingBlank(filters);
      forall i | 0 <= i < |filters| ensures Means(NormalAll(filters)[i], compare) <==> Means(filters[i], compare) {
        NormalMeans(filters[i], compare);
      }
  }

  lemma LeafMeans(f: Filter, compare: (string, string, string) -> bool)
    requires f.Expression? && IsComparison(compare) && Complete(f)
    ensures Means(Normal(f), compare) <==> Means(f, compare)
  {
    hide Decoded, Escaped, IsComparison;
    EscapedDecodes(f.variable);
    EscapedDecodes(f.value);
    var leaf := Expression(Shown(f.variable, f.escape), Shown(f.value, f.escape), PrintedOperator(f.operator), false);
    assert [leaf][0] == leaf;
    assert Means(Conjunction('!', [leaf]), compare) <==> !Means(leaf, compare);
    OperatorMeans(Decoded(leaf.variable), f.operator, Decoded(leaf.value), compare);
  }

  /** The printed operator compares the same, or the opposite if it is negated. */
  lemma OperatorMeans(variable: string, operator: string, value: string, compare: (string, string, string) -> bool)
    requires IsComparison(compare) && operator in ["=", "!=", "<", "<=", ">", ">="]
    ensures compare(variable, operator, value) <==> compare(variable, PrintedOperator(operator), value) != Negated(operator)
  {
  }

  lemma {:induction false} NothingBlank(filters: seq<Filter>)
    requires forall i :: 0 <= i < |filters| ==> Complete(filters[i])
    ensures |NormalAll(filters)| == |filters|
    ensures forall i :: 0 <= i < |filters| ==> NormalAll(filters)[i] == Normal(filters[i])
  {
    if filters != [] {
      assert Complete(filters[0]);
      NothingBlank(filters[1..]);
    }
  }

  /******* Any text *******/

  /** The text between enclosing parentheses. */
  function Inner(s: string): string {
    if |s| >= 2 && s[0] == '(' && s[|s| - 1] == ')' then s[1..|s| - 1] else s
  }

  /** Where an operator occurs first, and which one counts. */
  ghost predicate PreferredAt(s: string, op: string, variable: string, value: string) {
    && Inner(s) == variable + op + value
    && (forall i: nat :: i < |variable| ==> !Occurs(Inner(s), op, i))
    && (if exists i: nat :: Occurs(s, "<=", i) then op == "<="
        else if exists i: nat :: Occurs(s, ">=", i) then op == ">="
        else op == "=")
  }

  /** What any text that is no conjunction parses to. */
  lemma TextParses(s: string)
    requires s != "" && !IsKind(Start(s))
    ensures '=' !in s ==> Parsed(s) == Err(InvalidSyntax)
    ensures '=' in s ==>
              exists variable, op, value ::
                PreferredAt(s, op, variable, value) && Parsed(s) == Ok(Expression(variable, value, op, false))
  {
    hide Parsed, Find, Delimiter, Stripped, PreferredAt;
    EqualsIff(s);
    LeafText(s);
    if '=' in s {
      DelimiterSurvives(s);
      var op := Delimiter(s);
      var i := Find(Stripped(s), op).value;
      FirstIsPreferred(s, i);
      assert PreferredAt(s, op, Stripped(s)[..i], Stripped(s)[i + |op|..]);
    }
  }

  lemma LeafText(s: string)
    requires s != "" && !IsKind(Start(s))
    ensures Parsed(s) == if Find(s, "=").None? then Err(InvalidSyntax)
                         else match SplitOnce(Stripped(s), Delimiter(s))
                              case None => Err(CannotUnpack)
                              case Some(parts) => Ok(Expression(parts.0, parts.1, Delimiter(s), false))
  {
    hide Find, SplitOnce, Delimiter, Groups;
  }

  lemma FirstIsPreferred(s: string, i: nat)
    requires s != "" && Find(s, "=").Some? && Find(Stripped(s), Delimiter(s)) == Some(i)
    ensures i + |Delimiter(s)| <= |Stripped(s)|
    ensures PreferredAt(s, Delimiter(s), Stripped(s)[..i], Stripped(s)[i + |Delimiter(s)|..])
  {
    hide Find;
    assert s != ")" && Stripped(s) == Inner(s);
    assert Inner(s) == Inner(s)[..i] + Delimiter(s) + Inner(s)[i + |Delimiter(s)|..];
  }

  lemma EqualsIff(s: string)
    ensures '=' in s <==> Find(s, "=").Some?
  {
    if i :| 0 <= i < |s| && s[i] == '=' {
      assert s[i..i + 1] == "=" && Occurs(s, "=", i);
    }
    if Find(s, "=").Some? {
      assert s[Find(s, "=").value..Find(s, "=").value + 1][0] == '=';
    }
  }

  /** A text that starts with `&`, `|` or `!`, in parentheses or not, parses to
      the conjunction of its groups, or fails as the first of them that fails. */
  lemma ConjunctionParses(s: string)
    requires s != "" && IsKind(if |s| >= 2 && s[0] == '(' && s[|s| - 1] == ')' then s[1] else s[0])
    ensures var parts := Groups(Inner(s)[1..], 0, None);
            && Inner(s) != "" && (forall g :: g in parts ==> |g| < |s|)
            && Parsed(s) == match ParsedAll(parts, |s|)
                            case Err(e) => Err(e)
                            case Ok(filters) => Ok(Conjunction(Inner(s)[0], filters))
    ensures Parsed("") == Err(EmptyFilter)
  {
    hide Groups, ParsedAll, Find, Delimiter, SplitOnce;
    InnerIsStripped(s);
    GroupsAreShort(Inner(s)[1..], 0, None);
  }

  lemma InnerIsStripped(s: string)
    requires s != "" && IsKind(if |s| >= 2 && s[0] == '(' && s[|s| - 1] == ')' then s[1] else s[0])
    ensures IsKind(Start(s)) && Inner(s) == Stripped(s) && Inner(s) != "" && Inner(s)[0] == Start(s)
  {
  }
}
