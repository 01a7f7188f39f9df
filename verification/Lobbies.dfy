/** The games of an application: a map from ids to games, and a list of games for every lobby. Both hold weak
    references, and the deleter of a game takes its entries out after the last strong reference has gone. */
module Lobbies {
  import opened Sequences
  import opened LobbyPlan
  import opened LobbyMatch

  type Ref = nat
  type LobbyId = nat

  datatype Game = Game(id: string, lobby: LobbyId)

  datatype Created = Made(made: Ref) | Found(found: Option<Ref>) | EmptyId | AlreadyExists | ServerFull

  /** `live` are the games with a strong reference, `dying` those whose deleter has still to run. */
  datatype Index = Index(byId: map<string, Ref>, lists: map<LobbyId, seq<Ref>>, games: map<Ref, Game>, live: set<Ref>, dying: set<Ref>)

  const NO_GAMES := Index(map[], map[], map[], {}, {})

  function List(x: Index, lobby: LobbyId): seq<Ref> { if lobby in x.lists then x.lists[lobby] else [] }

  /** The map leads to every game that is there, and to nothing else; the list of a lobby has each of its live games once.
      A list may also have games that are gone. */
  ghost predicate InStep(x: Index) {
    && x.live !! x.dying && x.live + x.dying <= x.games.Keys
    && (forall r <- x.live + x.dying :: x.games[r].id in x.byId && x.byId[x.games[r].id] == r)
    && (forall id <- x.byId :: x.byId[id] in x.live + x.dying && x.games[x.byId[id]].id == id)
    && (forall r <- x.live :: r in List(x, x.games[r].lobby))
    && (forall l <- x.lists :: NoRepeats(x.lists[l]) && forall r <- x.lists[l] :: r in x.games && x.games[r].lobby == l)
  }

  /** The games that match, in the order of the list. */
  function Scan(list: seq<Ref>, live: set<Ref>, matches: Ref -> bool): seq<Ref> {
    if list == [] then []
    else
      var n := |list| - 1;
      Scan(list[..n], live, matches) + if list[n] in live && matches(list[n]) then [list[n]] else []
  }

  function LookUp(x: Index, lobby: LobbyId, id: string, matches: Ref -> bool): seq<Ref>
    requires forall r <- x.live :: r in x.games
  {
    if id in x.byId && x.byId[id] in x.live && x.games[x.byId[id]].lobby == lobby && matches(x.byId[id]) then [x.byId[id]] else []
  }

  function HasId(x: Index, id: string): Ref -> bool { (r: Ref) => r in x.games && x.games[r].id == id }

  function Both(f: Ref -> bool, g: Ref -> bool): Ref -> bool { (r: Ref) => f(r) && g(r) }

  lemma {:induction false} ScanNone(list: seq<Ref>, live: set<Ref>, matches: Ref -> bool)
    requires forall r <- list :: r in live ==> !matches(r)
    ensures Scan(list, live, matches) == []
  {
    if list != [] { ScanNone(list[..|list| - 1], live, matches); }
  }

  lemma {:induction false} ScanOne(list: seq<Ref>, live: set<Ref>, matches: Ref -> bool, r: Ref)
    requires NoRepeats(list) && r in list && r in live && matches(r)
    requires forall o <- list :: o in live && matches(o) ==> o == r
    ensures Scan(list, live, matches) == [r]
  {
    var n := |list| - 1;
    if list[n] == r {
      ScanNone(list[..n], live, matches);
    } else {
      assert r in list[..n];
      ScanOne(list[..n], live, matches, r);
    }
  }

  /** Looking a game up by its id finds what a scan of the lobby's list for that very id finds. */
  lemma LookUpIsScan(x: Index, lobby: LobbyId, id: string, matches: Ref -> bool)
    requires InStep(x)
    ensures LookUp(x, lobby, id, matches) == Scan(List(x, lobby), x.live, Both(HasId(x, id), matches))
  {
    var list, both := List(x, lobby), Both(HasId(x, id), matches);
    if id in x.byId && x.byId[id] in x.live && x.games[x.byId[id]].lobby == lobby && matches(x.byId[id]) {
      ScanOne(list, x.live, both, x.byId[id]);
    } else {
      forall r <- list ensures r in x.live ==> !both(r) {}
      ScanNone(list, x.live, both);
    }
  }

  // ----- the scan's own comparison

  function HasIdFolded(x: Index, id: CString): Ref -> bool { (r: Ref) => r in x.games && Compare(CText(x.games[r].id), id) == 0 }

  /** No live game of the lobby that matches otherwise has an id that differs from `id` in case alone, or behind a NUL. */
  ghost predicate NoNamesake(x: Index, lobby: LobbyId, id: CString, matches: Ref -> bool) {
    forall r <- List(x, lobby) :: r in x.live && r in x.games && matches(r) && SameFolded(CText(x.games[r].id), id) ==> x.games[r].id == id
  }

  /** Looking a game up gives what the executor's own scan for `id` would give exactly if there is no namesake. */
  lemma LookUpIsFoldedScan(x: Index, lobby: LobbyId, id: CString, matches: Ref -> bool)
    requires InStep(x)
    ensures LookUp(x, lobby, id, matches) == Scan(List(x, lobby), x.live, Both(HasIdFolded(x, id), matches))
            <==> NoNamesake(x, lobby, id, matches)
  {
    var list, folded, exact := List(x, lobby), Both(HasIdFolded(x, id), matches), Both(HasId(x, id), matches);
    LookUpIsScan(x, lobby, id, matches);
    forall r | r in x.games ensures folded(r) <==> SameFolded(CText(x.games[r].id), id) && matches(r) { CompareIs(CText(x.games[r].id), id); }
    if NoNamesake(x, lobby, id, matches) {
      forall r <- list ensures r in x.live ==> folded(r) == exact(r) {
        if x.games[r].id == id { WholeText(id); }
      }
      ScanSame(list, x.live, folded, exact);
    } else {
      var r :| r in list && r in x.live && r in x.games && matches(r) && SameFolded(CText(x.games[r].id), id) && x.games[r].id != id;
      ScanHas(list, x.live, folded, r);
      assert r !in LookUp(x, lobby, id, matches);
    }
  }

  lemma {:induction false} ScanSame(list: seq<Ref>, live: set<Ref>, f: Ref -> bool, g: Ref -> bool)
    requires forall r <- list :: r in live ==> f(r) == g(r)
    ensures Scan(list, live, f) == Scan(list, live, g)
  {
    if list != [] { ScanSame(list[..|list| - 1], live, f, g); }
  }

  /** A scan gives the live games that match, each as often as it is listed, in the order of the list. */
  lemma {:induction false} ScanPicks(list: seq<Ref>, live: set<Ref>, matches: Ref -> bool) returns (at: seq<nat>)
    ensures Picks(list, Scan(list, live, matches), at, (r: Ref) => r in live && matches(r))
  {
    at := [];
    if list != [] {
      var before := ScanPicks(list[..|list| - 1], live, matches);
      var wanted := (r: Ref) => r in live && matches(r);
      at := PicksSnoc(list, Scan(list[..|list| - 1], live, matches), before, wanted);
    }
  }

  lemma {:induction false} ScanHas(list: seq<Ref>, live: set<Ref>, matches: Ref -> bool, r: Ref)
    ensures r in Scan(list, live, matches) <==> r in list && r in live && matches(r)
  {
    if list != [] {
      var n := |list| - 1;
      ScanHas(list[..n], live, matches, r);
      assert list == list[..n] + [list[n]];
    }
  }

  // ----- executing a query

  datatype Filtered = Snapshot(games: seq<Ref>) | Broken

  /** What the plan asks for besides an id. */
  function FilterProps(ts: seq<Term>, args: seq<Argument>): seq<FilterProp>
    requires |ts| <= |args|
  {
    if ts == [] then []
    else
      var n := |ts| - 1;
      FilterProps(ts[..n], args) + if ts[n] == BY_ID then [] else [FilterProp(ts[n], args[n])]
  }

  /** The id that the plan asks for, the last if there are several. */
  function FilterId(ts: seq<Term>, args: seq<Argument>): Option<Argument>
    requires |ts| <= |args|
  {
    if ts == [] then None
    else
      var n := |ts| - 1;
      if ts[n] == BY_ID then Some(args[n]) else FilterId(ts[..n], args)
  }

  function Wanted(x: Index, props: Ref -> Properties, filter: seq<FilterProp>, m: Patterns): Ref -> bool {
    (r: Ref) => r in x.games && forall f <- filter :: Passes(x.games[r].id, props(r), f, m)
  }

  /** What comes of a query whose terms are `ts`. */
  function Executed(x: Index, lobby: LobbyId, byId: bool, ts: seq<Term>, args: seq<Argument>, props: Ref -> Properties, m: Patterns): seq<Ref>
    requires |ts| <= |args| && forall r <- x.live :: r in x.games
  {
    var id, wanted := FilterId(ts, args), Wanted(x, props, FilterProps(ts, args), m);
    if !byId then Scan(List(x, lobby), x.live, wanted)
    else if id.Some? && id.value.isNull then []
    else LookUp(x, lobby, if id.Some? then id.value.text else "", wanted)
  }

  method Split(ts: seq<Term>, args: seq<Argument>) returns (filter: seq<FilterProp>, id: CString, idIsNull: bool)
    requires |ts| <= |args|
    ensures filter == FilterProps(ts, args)
    ensures match FilterId(ts, args) case None => id == "" && !idIsNull case Some(v) => id == v.text && idIsNull == v.isNull
  {
    filter, id, idIsNull := [], "", false;
    for i := 0 to |ts|
      invariant filter == FilterProps(ts[..i], args)
      invariant match FilterId(ts[..i], args) case None => id == "" && !idIsNull case Some(v) => id == v.text && idIsNull == v.isNull
    {
      Prefixes(ts, i);
      if ts[i] == BY_ID {
        id, idIsNull := args[i].text, args[i].isNull;
      } else {
        filter := filter + [FilterProp(ts[i], args[i])];
      }
    }
    assert ts[..|ts|] == ts;
  }

  function WithoutFirst(list: seq<Ref>, r: Ref): seq<Ref> {
    if list == [] then [] else if list[0] == r then list[1..] else [list[0]] + WithoutFirst(list[1..], r)
  }

  class App {
    var byId: map<string, Ref>
    var lists: map<LobbyId, seq<Ref>>
    /** What a weak reference can tell. */
    var games: map<Ref, Game>
    var live: set<Ref>
    var dying: set<Ref>

    ghost function State(): Index reads this { Index(byId, lists, games, live, dying) }

    constructor ()
      ensures State() == NO_GAMES && InStep(State())
    {
      byId, lists, games, live, dying := map[], map[], map[], {}, {};
    }

    /** `listed` is the number of games in all lists, which counts against the limit. */
    method CreateGame(lobby: LobbyId, id: string, orGet: bool, listed: nat, limit: nat, r: Ref) returns (c: Created)
      requires InStep(State()) && r !in games
      modifies this
      ensures InStep(State())
      ensures !c.Made? ==> State() == old(State())
      ensures c == if id == "" then EmptyId
                   else if id in old(byId)
                   then if orGet then Found(if old(byId)[id] in old(live) then Some(old(byId)[id]) else None) else AlreadyExists
                   else if limit != 0 && listed >= limit then ServerFull else Made(r)
      ensures c.Made? ==>
                && live == old(live) + {r} && dying == old(dying) && games == old(games)[r := Game(id, lobby)]
                && byId == old(byId)[id := r] && lists == old(lists)[lobby := List(old(State()), lobby) + [r]]
    {
      if id == "" { return EmptyId; }
      if id in byId {
        if orGet { return Found(if byId[id] in live then Some(byId[id]) else None); }
        return AlreadyExists;
      }
      if limit != 0 && listed >= limit { return ServerFull; }
      ghost var x := State();
      games := games[r := Game(id, lobby)];
      live := live + {r};
      byId := byId[id := r];
      lists := lists[lobby := (if lobby in lists then lists[lobby] else []) + [r]];
      MadeInStep(x, lobby, id, r);
      return Made(r);
    }

    /** The last strong reference to the game has gone. */
    method Expire(r: Ref)
      requires InStep(State()) && r in live
      modifies this`live, this`dying
      ensures InStep(State()) && live == old(live) - {r} && dying == old(dying) + {r}
    {
      live, dying := live - {r}, dying + {r};
    }

    /** The deleter. In the list it looks for a reference that still leads to the game, and finds none. */
    method Delete(r: Ref)
      requires InStep(State()) && r in dying
      modifies this`byId, this`lists, this`dying
      ensures InStep(State()) && dying == old(dying) - {r} && byId == old(byId) - {games[r].id} && lists == old(lists)
    {
      var id, lobby := games[r].id, games[r].lobby;
      if id in byId { byId := byId - {id}; }
      EraseFromList(lobby, r);
      dying := dying - {r};
      DeletedInStep(old(State()), r);
    }

    method EraseFromList(lobby: LobbyId, r: Ref)
      modifies this`lists
      ensures lists == if lobby in old(lists) && r in live then old(lists)[lobby := WithoutFirst(old(lists)[lobby], r)] else old(lists)
    {
      if lobby !in lists { return; }
      var list, i := lists[lobby], 0;
      while i < |list| && !(list[i] in live && list[i] == r)
        invariant 0 <= i <= |list|
        invariant r in live ==> WithoutFirst(list, r) == list[..i] + WithoutFirst(list[i..], r)
      {
        assert list[i..][1..] == list[i + 1..];
        i := i + 1;
      }
      if i < |list| {
        assert list[i..][1..] == list[i + 1..];
        lists := lists[lobby := list[..i] + list[i + 1..]];
      } else {
        assert list[..i] + [] == list;
        assert lists[lobby := list] == lists;
      }
    }

    /** Runs a query: by id if the planner says so, and over the list otherwise. A null id matches nothing. */
    method Filter(lobby: LobbyId, byIndex: bool, plan: string, args: seq<Argument>, props: Ref -> Properties, m: Patterns)
      returns (r: Filtered)
      requires InStep(State())
      ensures match Parse(plan, 0, |args|)
              case Read(ts) => |ts| <= |args| && r == Snapshot(Executed(State(), lobby, byIndex, ts, args, props, m))
              case _ => r == Broken
    {
      var p := ReadPlan(plan, |args|);
      if !p.Read? { return Broken; }
      ParseFew(plan, 0, |args|);
      var filter, id, idIsNull := Split(p.terms, args);
      if byIndex && idIsNull { return Snapshot([]); }
      ghost var wanted := Wanted(State(), props, filter, m);
      var snapshot: seq<Ref> := [];
      if byIndex {
        if id in byId && byId[id] in live && games[byId[id]].lobby == lobby {
          var matches := MatchesProps(games[byId[id]].id, props(byId[id]), filter, m);
          if matches { snapshot := [byId[id]]; }
        }
        return Snapshot(snapshot);
      }
      var list := if lobby in lists then lists[lobby] else [];
      for i := 0 to |list|
        invariant snapshot == Scan(list[..i], live, wanted)
      {
        Prefixes(list, i);
        if list[i] in live {
          var matches := MatchesProps(games[list[i]].id, props(list[i]), filter, m);
          if matches { snapshot := snapshot + [list[i]]; }
        }
      }
      assert list[..|list|] == list;
      return Snapshot(snapshot);
    }
  }

  lemma MadeInStep(x: Index, lobby: LobbyId, id: string, r: Ref)
    requires InStep(x) && r !in x.games && id !in x.byId
    ensures InStep(x.(games := x.games[r := Game(id, lobby)], live := x.live + {r}, byId := x.byId[id := r],
                      lists := x.lists[lobby := List(x, lobby) + [r]]))
  {
    var n := x.(games := x.games[r := Game(id, lobby)], live := x.live + {r}, byId := x.byId[id := r],
                lists := x.lists[lobby := List(x, lobby) + [r]]);
    forall l | l in n.lists ensures NoRepeats(n.lists[l]) && forall o <- n.lists[l] :: o in n.games && n.games[o].lobby == l {
      if l == lobby { assert r !in List(x, lobby); } else { assert n.lists[l] == x.lists[l]; }
    }
    forall o | o in n.live ensures o in List(n, n.games[o].lobby) {
      if o == r { assert n.lists[lobby][|List(x, lobby)|] == r; }
    }
  }

  lemma DeletedInStep(x: Index, r: Ref)
    requires InStep(x) && r in x.dying
    ensures InStep(x.(byId := x.byId - {x.games[r].id}, dying := x.dying - {r}))
  {}
}
