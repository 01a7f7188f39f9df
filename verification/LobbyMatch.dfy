/** What a lobby query asks of a game. The executor knows each constraint as a column, a letter and an argument, and
    tests games by the letter; what the constraint means is said here without letters, and shown to be the same. */
module LobbyMatch {
  import opened Sequences
  import opened LobbyPlan

  const NUL: char := '\0'

  /** A text as C functions take it, which ends before the first NUL. */
  type CString = s: string | NUL !in s

  function CText(s: string): CString { if s == "" || s[0] == NUL then "" else [s[0]] + CText(s[1..]) }

  lemma {:induction false} WholeText(s: CString)
    ensures CText(s) == s
  {
    if s != "" { WholeText(s[1..]); }
  }

  // ----- comparing texts

  function Lower(c: char): char { if 'A' <= c <= 'Z' then c + 32 as char else c }

  /** Equal but for the case of letters. */
  predicate SameFolded(a: string, b: string) { |a| == |b| && forall i :: 0 <= i < |a| ==> Lower(a[i]) == Lower(b[i]) }

  /** `a` comes before `b` in a dictionary that makes nothing of case. */
  ghost predicate Before(a: string, b: string) {
    exists k :: 0 <= k <= |a| && k < |b| && SameFolded(a[..k], b[..k]) && (k == |a| || Lower(a[k]) < Lower(b[k]))
  }

  /** The database's comparison, which goes on while the characters are the same and counts the end as zero. */
  function Compare(a: CString, b: CString): int {
    var c, d := if a == "" then 0 else Lower(a[0]) as int, if b == "" then 0 else Lower(b[0]) as int;
    if c != d then c - d else if a == "" || b == "" then 0 else Compare(a[1..], b[1..])
  }

  lemma {:induction false} CompareIs(a: CString, b: CString)
    ensures Compare(a, b) == 0 <==> SameFolded(a, b)
    ensures Compare(a, b) < 0 <==> Before(a, b)
    ensures Compare(a, b) > 0 <==> Before(b, a)
  {
    if a != "" && b != "" && Lower(a[0]) == Lower(b[0]) {
      CompareIs(a[1..], b[1..]);
      SameRest(a, b);
      BeforeRest(a, b);
      BeforeRest(b, a);
    } else {
      BeforeAtOnce(a, b);
      BeforeAtOnce(b, a);
    }
  }

  lemma SameRest(a: string, b: string)
    requires a != "" && b != "" && Lower(a[0]) == Lower(b[0])
    ensures SameFolded(a, b) <==> SameFolded(a[1..], b[1..])
  {
    if SameFolded(a[1..], b[1..]) {
      forall i | 0 <= i < |a| ensures Lower(a[i]) == Lower(b[i]) {
        if i > 0 { assert Lower(a[1..][i - 1]) == Lower(b[1..][i - 1]); }
      }
    }
  }

  lemma BeforeRest(a: string, b: string)
    requires a != "" && b != "" && Lower(a[0]) == Lower(b[0])
    ensures Before(a, b) <==> Before(a[1..], b[1..])
  {
    if k :| 0 <= k <= |a| && k < |b| && SameFolded(a[..k], b[..k]) && (k == |a| || Lower(a[k]) < Lower(b[k])) {
      assert k > 0;
      assert a[1..][..k - 1] == a[..k][1..] && b[1..][..k - 1] == b[..k][1..];
      SameRest(a[..k], b[..k]);
    }
    if k :| 0 <= k <= |a[1..]| && k < |b[1..]| && SameFolded(a[1..][..k], b[1..][..k]) && (k == |a[1..]| || Lower(a[1..][k]) < Lower(b[1..][k])) {
      assert a[1..][..k] == a[..k + 1][1..] && b[1..][..k] == b[..k + 1][1..];
      SameRest(a[..k + 1], b[..k + 1]);
      assert k + 1 < |b| && (k + 1 == |a| || Lower(a[k + 1]) < Lower(b[k + 1]));
    }
  }

  lemma SameFirst(a: string, b: string)
    requires SameFolded(a, b)
    ensures a == "" || Lower(a[0]) == Lower(b[0])
  {}

  lemma BeforeAtOnce(a: string, b: string)
    requires a == "" || b == "" || Lower(a[0]) != Lower(b[0])
    ensures Before(a, b) <==> b != "" && (a == "" || Lower(a[0]) < Lower(b[0]))
  {
    if k :| 0 <= k <= |a| && k < |b| && SameFolded(a[..k], b[..k]) && (k == |a| || Lower(a[k]) < Lower(b[k])) {
      SameFirst(a[..k], b[..k]);
    }
    if b != "" && (a == "" || Lower(a[0]) < Lower(b[0])) {
      assert SameFolded(a[..0], b[..0]);
    }
  }

  // ----- what a query can ask about

  datatype Stored = Text(text: string) | Whole(number: int) | Truth(truth: bool) | Other

  /** The properties of a game by their keys. */
  type Properties = map<string, Stored>

  const KEYS: seq<string> := ["C0", "C1", "C2", "C3", "C4", "C5", "C6", "C7", "C8", "C9"]

  /** The value of a constraint: whether it is null, its number if it is numeric, and its text. */
  datatype Argument = Argument(isNull: bool, number: Option<int>, text: CString)

  /** The database's own matching of patterns with texts. */
  datatype Patterns = Patterns(like: (string, string) -> bool, glob: (string, string) -> bool)

  function Decimal(n: int): CString {
    if n < 0 then ['-'] + NoNul(Digits(-n)) else NoNul(Digits(n))
  }

  function NoNul(digits: string): (c: CString)
    requires forall d <- digits :: '0' <= d <= '9'
    ensures c == digits
  {
    digits
  }

  // ----- what a query shows of a game

  datatype Shown = ShownNull | ShownText(text: CString) | ShownInt(number: int)

  /** Column 0 is the id, and the others are the properties that lobbies show. */
  function Column(id: string, props: Properties, column: int): Shown {
    if column == 0 then ShownText(CText(id))
    else if 1 <= column <= COLUMNS && KEYS[column - 1] in props
    then
      match props[KEYS[column - 1]]
      case Text(text) => ShownText(CText(text))
      case Truth(truth) => ShownInt(if truth then 1 else 0)
      case Whole(number) => ShownInt(number)
      case Other => ShownNull
    else ShownNull
  }

  // ----- what a constraint means

  function TextOf(shown: Shown): CString
    requires !shown.ShownNull?
  {
    if shown.ShownText? then shown.text else Decimal(shown.number)
  }

  ghost predicate Above(shown: Shown, v: Argument)
    requires !shown.ShownNull?
  {
    if shown.ShownInt? && v.number.Some? then shown.number > v.number.value else Before(v.text, TextOf(shown))
  }

  ghost predicate Below(shown: Shown, v: Argument)
    requires !shown.ShownNull?
  {
    if shown.ShownInt? && v.number.Some? then shown.number < v.number.value else Before(TextOf(shown), v.text)
  }

  /** Nulls satisfy nothing. Numbers are compared as numbers, and everything else as text, in which case counts only
      for patterns. */
  ghost predicate Satisfies(shown: Shown, op: Op, v: Argument, m: Patterns) {
    && !v.isNull && !shown.ShownNull?
    && match op
       case Eq => SameFolded(TextOf(shown), v.text)
       case Like => m.like(v.text, TextOf(shown))
       case Glob => m.glob(v.text, TextOf(shown))
       case Gt => Above(shown, v)
       case Lt => Below(shown, v)
       case Ge => !Below(shown, v)
       case Le => !Above(shown, v)
  }

  /** The game shows something that satisfies the constraint. */
  ghost predicate Meets(id: string, props: Properties, c: Constraint, v: Argument, m: Patterns)
    requires Taken(c)
  {
    Satisfies(Column(id, props, c.column), c.op.value, v, m)
  }

  // ----- how it is tested

  /** What the executor reads: a text, and a number unless the property is a text. */
  datatype Actual = Actual(text: string, number: Option<int>)

  function ActualOf(id: string, props: Properties, column: int): Option<Actual> {
    if column == 0 then Some(Actual(id, None))
    else if !(1 <= column <= COLUMNS) || KEYS[column - 1] !in props then None
    else
      match props[KEYS[column - 1]]
      case Text(text) => Some(Actual(text, None))
      case Whole(number) => Some(Actual(Decimal(number), Some(number)))
      case Truth(truth) => var number := if truth then 1 else 0; Some(Actual(Decimal(number), Some(number)))
      case Other => None
  }

  predicate Compares(op: char, difference: int) {
    if op == '>' then difference > 0
    else if op == '<' then difference < 0
    else if op == ']' then difference >= 0
    else if op == '[' then difference <= 0
    else true
  }

  predicate Tested(a: Actual, op: char, v: Argument, m: Patterns) {
    if op == '=' then Compare(CText(a.text), v.text) == 0
    else if op == 'L' then m.like(v.text, CText(a.text))
    else if op == 'G' then m.glob(v.text, CText(a.text))
    else if v.number.Some? && a.number.Some? then Compares(op, a.number.value - v.number.value)
    else Compares(op, Compare(CText(a.text), v.text))
  }

  datatype FilterProp = FilterProp(term: Term, argument: Argument)

  predicate Passes(id: string, props: Properties, f: FilterProp, m: Patterns) {
    !f.argument.isNull && var a := ActualOf(id, props, f.term.column); a.Some? && Tested(a.value, f.term.op, f.argument, m)
  }

  method MatchesProps(id: string, props: Properties, filter: seq<FilterProp>, m: Patterns) returns (matches: bool)
    ensures matches <==> forall f <- filter :: Passes(id, props, f, m)
  {
    for i := 0 to |filter|
      invariant forall f <- filter[..i] :: Passes(id, props, f, m)
    {
      var f := filter[i];
      assert f in filter;
      if f.argument.isNull { return false; }
      var a := ActualOf(id, props, f.term.column);
      if a.None? || !Tested(a.value, f.term.op, f.argument, m) { return false; }
      assert filter[..i + 1] == filter[..i] + [f];
    }
    assert filter[..|filter|] == filter;
    return true;
  }

  // ----- the letters mean the operators

  /** What the executor reads is what the query shows. */
  lemma ReadsWhatIsShown(id: string, props: Properties, column: int)
    ensures var a, shown := ActualOf(id, props, column), Column(id, props, column);
      && (a == None <==> shown.ShownNull?)
      && (a.Some? ==> CText(a.value.text) == TextOf(shown) && a.value.number == if shown.ShownInt? then Some(shown.number) else None)
  {
    var a := ActualOf(id, props, column);
    if a.Some? && a.value.number.Some? { WholeText(a.value.text); }
  }

  lemma TestedIsSatisfies(a: Actual, shown: Shown, op: Op, v: Argument, m: Patterns)
    requires !v.isNull && !shown.ShownNull?
    requires CText(a.text) == TextOf(shown) && a.number == if shown.ShownInt? then Some(shown.number) else None
    ensures Tested(a, OpChar(op), v, m) <==> Satisfies(shown, op, v, m)
  {
    CompareIs(TextOf(shown), v.text);
  }

  /** A game passes the test of the letter that the planner writes for a constraint exactly if it meets the constraint. */
  lemma PassesIsMeets(id: string, props: Properties, c: Constraint, v: Argument, m: Patterns)
    requires Taken(c)
    ensures Passes(id, props, FilterProp(Term(c.column, OpChar(c.op.value)), v), m) <==> Meets(id, props, c, v, m)
  {
    var a := ActualOf(id, props, c.column);
    ReadsWhatIsShown(id, props, c.column);
    if !v.isNull && a.Some? { TestedIsSatisfies(a.value, Column(id, props, c.column), c.op.value, v, m); }
  }
}
