/** A lobby query is planned and executed by two functions that share nothing but a string: the planner writes down
    which constraints it has taken, and the executor reads them back. */
module LobbyPlan {
  import opened Sequences

  datatype Op = Eq | Like | Glob | Gt | Lt | Ge | Le

  /** A constraint as the database offers it. Other operators than these are of no interest. */
  datatype Constraint = Constraint(usable: bool, column: int, op: Option<Op>)

  datatype Term = Term(column: nat, op: char)

  const COLUMNS: int := 10
  const BY_ID := Term(0, '=')
  const END: char := ';'

  function OpChar(op: Op): char {
    match op
    case Eq => '='
    case Like => 'L'
    case Glob => 'G'
    case Gt => '>'
    case Lt => '<'
    case Ge => ']'
    case Le => '['
  }

  predicate Taken(c: Constraint) { c.usable && c.op.Some? && 0 <= c.column <= COLUMNS }

  /** The constraints that the planner takes, in their order. */
  function Terms(cs: seq<Constraint>): seq<Term> {
    if cs == [] then []
    else
      var n := |cs| - 1;
      Terms(cs[..n]) + if Taken(cs[n]) then [Term(cs[n].column, OpChar(cs[n].op.value))] else []
  }

  function Digits(n: nat): (s: string)
    ensures |s| > 0 && forall c <- s :: '0' <= c <= '9'
    decreases n
  {
    if n < 10 then ['0' + n as char] else Digits(n / 10) + ['0' + (n % 10) as char]
  }

  /** The number at the front of a string. */
  function Number(s: string): Option<nat> {
    if s == "" then None
    else
      var n := |s| - 1;
      if !('0' <= s[n] <= '9') then None
      else if n == 0 then Some((s[0] - '0') as nat)
      else match Number(s[..n]) case None => None case Some(v) => Some(10 * v + (s[n] - '0') as nat)
  }

  lemma {:induction false} NumberDigits(n: nat)
    ensures Number(Digits(n)) == Some(n)
    decreases n
  {
    if n >= 10 {
      NumberDigits(n / 10);
      var d := Digits(n);
      assert d[..|d| - 1] == Digits(n / 10);
    }
  }

  function Word(t: Term): string { Digits(t.column) + [t.op] + [END] }

  function Plan(ts: seq<Term>): string {
    if ts == [] then "" else Plan(ts[..|ts| - 1]) + Word(ts[|ts| - 1])
  }

  lemma PlanSnoc(ts: seq<Term>, t: Term)
    ensures Plan(ts + [t]) == Plan(ts) + Word(t)
  {
    assert (ts + [t])[..|ts|] == ts;
  }

  /** Writes the plan. `usage` gives every constraint that is taken the number of its argument, and 0 to the others. */
  method BestIndex(cs: seq<Constraint>) returns (usage: seq<nat>, byId: bool, plan: string)
    ensures plan == Plan(Terms(cs)) && |usage| == |cs|
    ensures forall i :: 0 <= i < |cs| ==> usage[i] == if Taken(cs[i]) then |Terms(cs[..i + 1])| else 0
    ensures byId <==> BY_ID in Terms(cs)
  {
    usage, byId, plan := [], false, "";
    var argument := 1;
    for i := 0 to |cs|
      invariant plan == Plan(Terms(cs[..i])) && |usage| == i && argument == |Terms(cs[..i])| + 1
      invariant forall j :: 0 <= j < i ==> usage[j] == if Taken(cs[j]) then |Terms(cs[..j + 1])| else 0
      invariant byId <==> BY_ID in Terms(cs[..i])
    {
      assert cs[..i + 1][..i] == cs[..i];
      var c := cs[i];
      if Taken(c) {
        var t := Term(c.column, OpChar(c.op.value));
        assert Terms(cs[..i + 1]) == Terms(cs[..i]) + [t];
        PlanSnoc(Terms(cs[..i]), t);
        usage := usage + [argument];
        argument := argument + 1;
        plan := plan + Word(t);
        byId := byId || (c.column == 0 && c.op.value.Eq?);
      } else {
        assert Terms(cs[..i + 1]) == Terms(cs[..i]);
        usage := usage + [0];
      }
    }
    assert cs[..|cs|] == cs;
  }

  // ----- reading the plan back

  datatype Parsed = Read(terms: seq<Term>) | Mismatch | NotANumber

  /** Reads terms from `start` on, of which there may be `arguments`. */
  function Parse(s: string, start: nat, arguments: nat): Parsed
    requires start <= |s|
    decreases |s| - start
  {
    var end := Find(s, END, start);
    if start == |s| || end == |s| then Read([])
    else
      var token := s[start..end];
      if token == "" then Parse(s, end + 1, arguments)
      else if arguments == 0 then Mismatch
      else
        match Number(token[..|token| - 1])
        case None => NotANumber
        case Some(column) =>
          match Parse(s, end + 1, arguments - 1)
          case Read(ts) => Read([Term(column, token[|token| - 1])] + ts)
          case Mismatch => Mismatch
          case NotANumber => NotANumber
  }

  lemma {:induction false} ParseFew(s: string, start: nat, arguments: nat)
    requires start <= |s|
    ensures var p := Parse(s, start, arguments); p.Read? ==> |p.terms| <= arguments
    decreases |s| - start
  {
    var end := Find(s, END, start);
    if start < |s| && end < |s| {
      if start == end {
        ParseFew(s, end + 1, arguments);
      } else if arguments > 0 {
        ParseFew(s, end + 1, arguments - 1);
      }
    }
  }

  /** What has been read, and then the rest. */
  function Then(ts: seq<Term>, p: Parsed): Parsed {
    match p
    case Read(more) => Read(ts + more)
    case Mismatch => Mismatch
    case NotANumber => NotANumber
  }

  method ReadPlan(s: string, arguments: nat) returns (p: Parsed)
    ensures p == Parse(s, 0, arguments)
  {
    var start, left: nat := 0, arguments;
    var ts: seq<Term> := [];
    NothingYet(Parse(s, 0, arguments));
    while start < |s|
      invariant start <= |s| && Parse(s, 0, arguments) == Then(ts, Parse(s, start, left))
      decreases |s| - start
    {
      var end := FindFirstOf(s, END, start);
      ParseNext(s, start, left, ts);
      if end == |s| { return Read(ts); }
      if start < end {
        if left == 0 { return Mismatch; }
        var column := Number(s[start..end - 1]);
        if column == None { return NotANumber; }
        var t := Term(column.value, s[end - 1]);
        ts, left := ts + [t], left - 1;
      }
      start := end + 1;
    }
    ParseEnd(s, left, ts);
    return Read(ts);
  }

  lemma NothingYet(p: Parsed)
    ensures Then([], p) == p
  {
    if p.Read? { assert [] + p.terms == p.terms; }
  }

  lemma ParseEnd(s: string, left: nat, ts: seq<Term>)
    ensures Then(ts, Parse(s, |s|, left)) == Read(ts)
  {
    assert ts + [] == ts;
  }

  lemma ParseNext(s: string, start: nat, left: nat, ts: seq<Term>)
    requires start < |s|
    ensures var end := Find(s, END, start);
      Then(ts, Parse(s, start, left))
      == if end == |s| then Read(ts)
         else if start == end then Then(ts, Parse(s, end + 1, left))
         else if left == 0 then Mismatch
         else match Number(s[start..end - 1])
              case None => NotANumber
              case Some(column) => Then(ts + [Term(column, s[end - 1])], Parse(s, end + 1, left - 1))
  {
    var end := Find(s, END, start);
    if end == |s| {
      assert ts + [] == ts;
    } else if start < end && left > 0 {
      ParseTerm(s, start, left, ts);
    }
  }

  lemma ParseTerm(s: string, start: nat, left: nat, ts: seq<Term>)
    requires start < |s| && left > 0 && start < Find(s, END, start) < |s|
    ensures var end := Find(s, END, start);
      Then(ts, Parse(s, start, left))
      == match Number(s[start..end - 1])
         case None => NotANumber
         case Some(column) => Then(ts + [Term(column, s[end - 1])], Parse(s, end + 1, left - 1))
  {
    var end := Find(s, END, start);
    assert s[start..end][..end - start - 1] == s[start..end - 1];
    if Number(s[start..end - 1]).Some? {
      ThenMore(ts, Term(Number(s[start..end - 1]).value, s[end - 1]), Parse(s, end + 1, left - 1));
    }
  }

  lemma ThenMore(ts: seq<Term>, t: Term, p: Parsed)
    ensures Then(ts, Then([t], p)) == Then(ts + [t], p)
  {
    if p.Read? { assert ts + ([t] + p.terms) == (ts + [t]) + p.terms; }
  }

  // ----- the plan says what was taken

  predicate Plannable(t: Term) { t.op != END && !('0' <= t.op <= '9') }

  lemma {:induction false} PlanFirst(t: Term, ts: seq<Term>)
    ensures Plan([t] + ts) == Word(t) + Plan(ts)
  {
    if ts == [] {
      PlanSnoc([], t);
      assert [t] + ts == [] + [t];
    } else {
      var n := |ts| - 1;
      var some, last := ts[..n], ts[n];
      assert ts == some + [last] && [t] + ts == ([t] + some) + [last];
      PlanSnoc([t] + some, last);
      PlanSnoc(some, last);
      PlanFirst(t, some);
    }
  }

  lemma {:induction false} FindPast(s: string, c: char, from: nat, to: nat)
    requires from <= to < |s| && s[to] == c && forall i :: from <= i < to ==> s[i] != c
    ensures Find(s, c, from) == to
    decreases |s| - from
  {
    if from < to { FindPast(s, c, from + 1, to); }
  }

  lemma ParseWord(before: string, t: Term, after: string, arguments: nat)
    requires Plannable(t) && arguments > 0
    ensures var s := before + Word(t) + after; var end := |before| + |Digits(t.column)| + 1;
      Parse(s, |before|, arguments) == Then([t], Parse(s, end + 1, arguments - 1)) && end + 1 == |before + Word(t)|
  {
    var s, d := before + Word(t) + after, Digits(t.column);
    var end := |before| + |d| + 1;
    assert s[|before|..end] == d + [t.op];
    assert s[end] == END;
    forall i | |before| <= i < end ensures s[i] != END {
      assert s[i] == s[|before|..end][i - |before|];
      if i < end - 1 { assert d[i - |before|] in d; }
    }
    FindPast(s, END, |before|, end);
    assert (d + [t.op])[..|d|] == d;
    NumberDigits(t.column);
  }

  lemma {:induction false} ParsePlan(before: string, ts: seq<Term>, arguments: nat)
    requires (forall t <- ts :: Plannable(t)) && |ts| <= arguments
    ensures Parse(before + Plan(ts), |before|, arguments) == Read(ts)
    decreases |ts|
  {
    if ts == [] {
      ParseNothing(before, arguments);
    } else {
      var t, rest := ts[0], ts[1..];
      assert ts == [t] + rest;
      ParsePlan(before + Word(t), rest, arguments - 1);
      ParseStep(before, t, rest, Plan(rest), arguments);
      PlanBehind(before, ts);
    }
  }

  lemma ParseNothing(before: string, arguments: nat)
    ensures Parse(before + Plan([]), |before|, arguments) == Read([])
  {
    assert before + "" == before;
  }

  lemma ParseStep(before: string, t: Term, ts: seq<Term>, after: string, arguments: nat)
    requires Plannable(t) && arguments > 0
    requires Parse(before + Word(t) + after, |before + Word(t)|, arguments - 1) == Read(ts)
    ensures Parse(before + Word(t) + after, |before|, arguments) == Read([t] + ts)
  {
    ParseWord(before, t, after, arguments);
  }

  lemma PlanBehind(before: string, ts: seq<Term>)
    requires ts != []
    ensures before + Plan(ts) == before + Word(ts[0]) + Plan(ts[1..])
  {
    assert ts == [ts[0]] + ts[1..];
    PlanFirst(ts[0], ts[1..]);
    assert before + (Word(ts[0]) + Plan(ts[1..])) == before + Word(ts[0]) + Plan(ts[1..]);
  }

  lemma {:induction false} TermsPlannable(cs: seq<Constraint>)
    ensures forall t <- Terms(cs) :: Plannable(t)
  {
    if cs != [] { TermsPlannable(cs[..|cs| - 1]); }
  }

  /** The executor reads back exactly the constraints that the planner took, in the order of their arguments,
      and fails only if it is given too few arguments. */
  lemma PlanReadBack(cs: seq<Constraint>)
    ensures Parse(Plan(Terms(cs)), 0, |Terms(cs)|) == Read(Terms(cs))
  {
    TermsPlannable(cs);
    ParsePlan("", Terms(cs), |Terms(cs)|);
    assert "" + Plan(Terms(cs)) == Plan(Terms(cs));
  }
}
