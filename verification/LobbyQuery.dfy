/** A lobby query from its constraints to its games, through the planner, the plan string and the executor. */
module LobbyQuery {
  import opened Sequences
  import opened LobbyPlan
  import opened LobbyMatch
  import opened Lobbies

  /** A constraint on the id, which the executor takes for itself. */
  predicate ById(c: Constraint) { Taken(c) && c.column == 0 && c.op == Some(Eq) }

  /** What the database hands to the executor: the values of the constraints that were taken. */
  function Given(cs: seq<Constraint>, values: seq<Argument>): (args: seq<Argument>)
    requires |values| == |cs|
    ensures |args| == |Terms(cs)|
  {
    if cs == [] then []
    else
      var n := |cs| - 1;
      Given(cs[..n], values[..n]) + if Taken(cs[n]) then [values[n]] else []
  }

  /** Every value is where the planner's numbering says. */
  lemma {:induction false} GivenAt(cs: seq<Constraint>, values: seq<Argument>, i: nat)
    requires |values| == |cs| && i < |cs| && Taken(cs[i])
    ensures 0 < |Terms(cs[..i + 1])| <= |Terms(cs)| && Given(cs, values)[|Terms(cs[..i + 1])| - 1] == values[i]
  {
    var n := |cs| - 1;
    if i < n {
      GivenAt(cs[..n], values[..n], i);
      assert cs[..n][..i + 1] == cs[..i + 1];
    } else {
      assert cs[..i + 1] == cs;
    }
  }

  // ----- what a query asks for

  /** Unlike other texts, ids have to be the same letter by letter. */
  ghost predicate Answers(id: string, props: Properties, c: Constraint, v: Argument, m: Patterns)
    requires Taken(c)
  {
    if ById(c) then !v.isNull && id == v.text else Meets(id, props, c, v, m)
  }

  /** The game meets every constraint that was taken. */
  ghost predicate AnswersAll(id: string, props: Properties, cs: seq<Constraint>, values: seq<Argument>, m: Patterns)
    requires |values| == |cs|
  {
    forall i :: 0 <= i < |cs| && Taken(cs[i]) ==> Answers(id, props, cs[i], values[i], m)
  }

  ghost predicate Overridden(cs: seq<Constraint>, i: nat)
    requires i < |cs|
  {
    ById(cs[i]) && exists j :: i < j < |cs| && ById(cs[j])
  }

  /** The game meets every constraint that was taken, but for those on its id before the last such. */
  ghost predicate AnswersLast(id: string, props: Properties, cs: seq<Constraint>, values: seq<Argument>, m: Patterns)
    requires |values| == |cs|
  {
    forall i :: 0 <= i < |cs| && Taken(cs[i]) && !Overridden(cs, i) ==> Answers(id, props, cs[i], values[i], m)
  }

  /** All constraints on the id ask for the same. */
  ghost predicate IdsAgree(cs: seq<Constraint>, values: seq<Argument>)
    requires |values| == |cs|
  {
    forall i, j :: 0 <= i < j < |cs| && ById(cs[i]) && ById(cs[j]) ==> values[i].isNull == values[j].isNull && values[i].text == values[j].text
  }

  // ----- what the executor looks at

  /** The game meets constraint `i`, unless that is for the executor's look-up or not for the executor at all. */
  ghost predicate MeetsAt(id: string, props: Properties, cs: seq<Constraint>, values: seq<Argument>, m: Patterns, i: nat)
    requires i < |cs| == |values|
  {
    Taken(cs[i]) && !ById(cs[i]) ==> Meets(id, props, cs[i], values[i], m)
  }

  ghost predicate AllMet(id: string, props: Properties, cs: seq<Constraint>, values: seq<Argument>, m: Patterns)
    requires |values| == |cs|
  {
    forall i :: 0 <= i < |cs| ==> MeetsAt(id, props, cs, values, m, i)
  }

  ghost predicate AllPassed(id: string, props: Properties, filter: seq<FilterProp>, m: Patterns) {
    forall f <- filter :: Passes(id, props, f, m)
  }

  lemma {:induction false} TestsMeet(cs: seq<Constraint>, values: seq<Argument>, id: string, props: Properties, m: Patterns)
    requires |values| == |cs|
    ensures AllPassed(id, props, FilterProps(Terms(cs), Given(cs, values)), m) <==> AllMet(id, props, cs, values, m)
  {
    if cs != [] {
      var n := |cs| - 1;
      TestsMeet(cs[..n], values[..n], id, props, m);
      MetSnoc(id, props, cs, values, m);
      LastTerm(cs, values);
      if Taken(cs[n]) && !ById(cs[n]) {
        PassesIsMeets(id, props, cs[n], values[n], m);
        PassedSnoc(id, props, FilterProps(Terms(cs[..n]), Given(cs[..n], values[..n])), FilterProp(TermOf(cs[n]), values[n]), m);
      }
    }
  }

  lemma MetSnoc(id: string, props: Properties, cs: seq<Constraint>, values: seq<Argument>, m: Patterns)
    requires |values| == |cs| > 0
    ensures var n := |cs| - 1;
      AllMet(id, props, cs, values, m) <==> MeetsAt(id, props, cs, values, m, n) && AllMet(id, props, cs[..n], values[..n], m)
  {
    var n := |cs| - 1;
    assert forall i :: 0 <= i < n ==> MeetsAt(id, props, cs[..n], values[..n], m, i) == MeetsAt(id, props, cs, values, m, i);
  }

  lemma PassedSnoc(id: string, props: Properties, filter: seq<FilterProp>, f: FilterProp, m: Patterns)
    ensures AllPassed(id, props, filter + [f], m) <==> AllPassed(id, props, filter, m) && Passes(id, props, f, m)
  {
    assert (filter + [f])[|filter|] == f;
    assert forall g <- filter :: g in filter + [f];
  }

  function TermOf(c: Constraint): (t: Term)
    requires Taken(c)
    ensures t == BY_ID <==> ById(c)
  {
    Term(c.column, OpChar(c.op.value))
  }

  /** What the last constraint adds. */
  lemma LastTerm(cs: seq<Constraint>, values: seq<Argument>)
    requires |values| == |cs| > 0
    ensures var n := |cs| - 1;
      && FilterProps(Terms(cs), Given(cs, values))
         == (if Taken(cs[n]) && !ById(cs[n]) then FilterProps(Terms(cs[..n]), Given(cs[..n], values[..n])) + [FilterProp(TermOf(cs[n]), values[n])]
             else FilterProps(Terms(cs[..n]), Given(cs[..n], values[..n])))
      && FilterId(Terms(cs), Given(cs, values))
         == if ById(cs[n]) then Some(values[n]) else FilterId(Terms(cs[..n]), Given(cs[..n], values[..n]))
  {
    TermsSnoc(cs);
    GivenSnoc(cs, values);
    var n := |cs| - 1;
    if Taken(cs[n]) { FilterSnoc(Terms(cs[..n]), Given(cs[..n], values[..n]), TermOf(cs[n]), values[n]); }
  }

  lemma TermsSnoc(cs: seq<Constraint>)
    requires cs != []
    ensures var n := |cs| - 1; Terms(cs) == if Taken(cs[n]) then Terms(cs[..n]) + [TermOf(cs[n])] else Terms(cs[..n])
  {}

  lemma GivenSnoc(cs: seq<Constraint>, values: seq<Argument>)
    requires |values| == |cs| > 0
    ensures var n := |cs| - 1; Given(cs, values) == if Taken(cs[n]) then Given(cs[..n], values[..n]) + [values[n]] else Given(cs[..n], values[..n])
  {}

  lemma FilterSnoc(ts: seq<Term>, args: seq<Argument>, t: Term, v: Argument)
    requires |args| == |ts|
    ensures FilterProps(ts + [t], args + [v]) == if t == BY_ID then FilterProps(ts, args) else FilterProps(ts, args) + [FilterProp(t, v)]
    ensures FilterId(ts + [t], args + [v]) == if t == BY_ID then Some(v) else FilterId(ts, args)
  {
    assert (ts + [t])[..|ts|] == ts;
    SamePrefix(ts, args, args + [v]);
  }

  lemma {:induction false} SamePrefix(ts: seq<Term>, args: seq<Argument>, more: seq<Argument>)
    requires |ts| <= |args| && args <= more
    ensures FilterProps(ts, args) == FilterProps(ts, more) && FilterId(ts, args) == FilterId(ts, more)
  {
    if ts != [] { SamePrefix(ts[..|ts| - 1], args, more); }
  }

  ghost predicate LastById(cs: seq<Constraint>, i: nat) {
    i < |cs| && ById(cs[i]) && forall j :: i < j < |cs| ==> !ById(cs[j])
  }

  lemma {:induction false} PlannedById(cs: seq<Constraint>, values: seq<Argument>)
    requires |values| == |cs|
    ensures BY_ID in Terms(cs) <==> FilterId(Terms(cs), Given(cs, values)).Some?
  {
    if cs != [] {
      PlannedById(cs[..|cs| - 1], values[..|cs| - 1]);
      LastTerm(cs, values);
    }
  }

  lemma {:induction false} LastIdWins(cs: seq<Constraint>, values: seq<Argument>) returns (last: nat)
    requires |values| == |cs|
    ensures match FilterId(Terms(cs), Given(cs, values))
            case None => forall i :: 0 <= i < |cs| ==> !ById(cs[i])
            case Some(v) => LastById(cs, last) && values[last] == v
  {
    last := 0;
    if cs != [] {
      var n := |cs| - 1;
      LastTerm(cs, values);
      if ById(cs[n]) { return n; }
      last := LastIdWins(cs[..n], values[..n]);
      assert forall i :: 0 <= i < n ==> cs[..n][i] == cs[i];
    }
  }

  lemma AnswersAt(id: string, props: Properties, cs: seq<Constraint>, values: seq<Argument>, m: Patterns, i: nat, last: nat)
    requires i < |cs| == |values| && if ById(cs[i]) then LastById(cs, last) else true
    ensures (Taken(cs[i]) && !Overridden(cs, i) ==> Answers(id, props, cs[i], values[i], m))
            <==> if ById(cs[i]) then i == last ==> !values[i].isNull && id == values[i].text else MeetsAt(id, props, cs, values, m, i)
  {
    if ById(cs[i]) && i != last { assert i < last && Overridden(cs, i); }
  }

  /** The id that the executor looks for and the tests that it makes are what the query asks for, with the last id only. */
  lemma LastAnswers(cs: seq<Constraint>, values: seq<Argument>, id: string, props: Properties, m: Patterns)
    requires |values| == |cs|
    ensures AnswersLast(id, props, cs, values, m)
            <==> (match FilterId(Terms(cs), Given(cs, values)) case None => true case Some(v) => !v.isNull && id == v.text)
                 && AllPassed(id, props, FilterProps(Terms(cs), Given(cs, values)), m)
  {
    TestsMeet(cs, values, id, props, m);
    var last := LastIdWins(cs, values);
    forall i | 0 <= i < |cs|
      ensures (Taken(cs[i]) && !Overridden(cs, i) ==> Answers(id, props, cs[i], values[i], m))
              <==> if ById(cs[i]) then i == last ==> !values[i].isNull && id == values[i].text else MeetsAt(id, props, cs, values, m, i)
    {
      AnswersAt(id, props, cs, values, m, i, last);
    }
  }

  // ----- the whole way

  /** The games of the lobby that are there and of which `wanted` holds, in the order of its list. */
  ghost function Those(x: Index, lobby: LobbyId, wanted: Ref -> bool): seq<Ref> { Scan(List(x, lobby), x.live, wanted) }

  ghost function ThatAnswerLast(x: Index, props: Ref -> Properties, cs: seq<Constraint>, values: seq<Argument>, m: Patterns): Ref -> bool
    requires |values| == |cs|
  {
    (r: Ref) => r in x.games && AnswersLast(x.games[r].id, props(r), cs, values, m)
  }

  ghost function ThatAnswerAll(x: Index, props: Ref -> Properties, cs: seq<Constraint>, values: seq<Argument>, m: Patterns): Ref -> bool
    requires |values| == |cs|
  {
    (r: Ref) => r in x.games && AnswersAll(x.games[r].id, props(r), cs, values, m)
  }

  lemma ExecutedAnswers(x: Index, lobby: LobbyId, cs: seq<Constraint>, values: seq<Argument>, props: Ref -> Properties, m: Patterns)
    requires InStep(x) && |values| == |cs|
    ensures Executed(x, lobby, BY_ID in Terms(cs), Terms(cs), Given(cs, values), props, m)
         == Those(x, lobby, ThatAnswerLast(x, props, cs, values, m))
  {
    var ts, args := Terms(cs), Given(cs, values);
    var id, wanted, last := FilterId(ts, args), Wanted(x, props, FilterProps(ts, args), m), ThatAnswerLast(x, props, cs, values, m);
    PlannedById(cs, values);
    forall r | r in x.games
      ensures last(r) <==> wanted(r) && match id case None => true case Some(v) => !v.isNull && x.games[r].id == v.text
    {
      LastAnswers(cs, values, x.games[r].id, props(r), m);
    }
    if id.None? {
      ScanSame(List(x, lobby), x.live, wanted, last);
    } else if id.value.isNull {
      ScanNone(List(x, lobby), x.live, last);
    } else {
      LookUpIsScan(x, lobby, id.value.text, wanted);
      ScanSame(List(x, lobby), x.live, Both(HasId(x, id.value.text), wanted), last);
    }
  }

  /** Only when the constraints on the id ask for different ids does it matter that all but the last are forgotten. */
  lemma AllOrLast(x: Index, lobby: LobbyId, cs: seq<Constraint>, values: seq<Argument>, props: Ref -> Properties, m: Patterns)
    requires |values| == |cs|
    ensures var last := Those(x, lobby, ThatAnswerLast(x, props, cs, values, m));
      last == Those(x, lobby, ThatAnswerAll(x, props, cs, values, m)) <==> IdsAgree(cs, values) || last == []
  {
    var last, all := ThatAnswerLast(x, props, cs, values, m), ThatAnswerAll(x, props, cs, values, m);
    if IdsAgree(cs, values) {
      forall r | r in x.games ensures last(r) <==> all(r) { SameAnswers(x.games[r].id, props(r), cs, values, m); }
      ScanSame(List(x, lobby), x.live, last, all);
    } else {
      forall r | r in x.games ensures !all(r) { NoAnswers(x.games[r].id, props(r), cs, values, m); }
      ScanNone(List(x, lobby), x.live, all);
    }
  }

  lemma SameAnswers(id: string, props: Properties, cs: seq<Constraint>, values: seq<Argument>, m: Patterns)
    requires |values| == |cs| && IdsAgree(cs, values)
    ensures AnswersLast(id, props, cs, values, m) <==> AnswersAll(id, props, cs, values, m)
  {
    var last := LastIdWins(cs, values);
    if AnswersLast(id, props, cs, values, m) {
      forall i | 0 <= i < |cs| && Taken(cs[i]) ensures Answers(id, props, cs[i], values[i], m) {
        if Overridden(cs, i) {
          assert !Overridden(cs, last) && i < last;
        }
      }
    }
  }

  lemma NoAnswers(id: string, props: Properties, cs: seq<Constraint>, values: seq<Argument>, m: Patterns)
    requires |values| == |cs| && !IdsAgree(cs, values)
    ensures !AnswersAll(id, props, cs, values, m)
  {
    var i, j :| 0 <= i < j < |cs| && ById(cs[i]) && ById(cs[j]) && !(values[i].isNull == values[j].isNull && values[i].text == values[j].text);
    assert !Answers(id, props, cs[i], values[i], m) || !Answers(id, props, cs[j], values[j], m);
  }

  /** A query gives the games of the lobby that meet every constraint the planner has taken, in the order of the list,
      exactly if its constraints on the id agree or no game meets the last of them and all others. */
  method Query(app: App, lobby: LobbyId, cs: seq<Constraint>, values: seq<Argument>, props: Ref -> Properties, m: Patterns)
    returns (r: Filtered)
    requires InStep(app.State()) && |values| == |cs|
    ensures r.Snapshot? && r.games == Those(app.State(), lobby, ThatAnswerLast(app.State(), props, cs, values, m))
    ensures r.games == Those(app.State(), lobby, ThatAnswerAll(app.State(), props, cs, values, m)) <==> IdsAgree(cs, values) || r.games == []
  {
    var usage, byId, plan := BestIndex(cs);
    var args := Given(cs, values);
    forall i | 0 <= i < |cs| && usage[i] > 0 ensures usage[i] <= |args| && args[usage[i] - 1] == values[i] { GivenAt(cs, values, i); }
    PlanReadBack(cs);
    r := app.Filter(lobby, byId, plan, args, props, m);
    ExecutedAnswers(app.State(), lobby, cs, values, props, m);
    AllOrLast(app.State(), lobby, cs, values, props, m);
  }
}
