/** Property updates of a room: a table of keys and values, walked in no particular order. */
module RoomProperties {
  datatype Value = Null | Bool(b: bool) | Byte(u: bv8) | Int(i: int) | Strings(s: seq<string>) | Text(t: string)

  /** The properties that are fields of the room, each of its own type. */
  datatype Field = MaxPlayers | IsVisible | IsOpen | PlayerTtl | EmptyGameTtl | MasterClient | LobbyProperties

  /** A byte key names a field, or is ignored by updates, as that of the player count. Any other value but null
      is a key of its own. */
  datatype Key = NullKey | Known(field: Field) | Unknown(code: bv8) | Custom(key: Value)

  type Update = map<Key, Value>

  datatype Props = Props(known: map<Field, Value>, custom: map<Key, Value>)

  datatype Rules = Rules(deleteNull: bool, allowChangeMaster: bool)

  predicate HasType(f: Field, v: Value) {
    match f
    case MaxPlayers => v.Byte?
    case IsVisible | IsOpen => v.Bool?
    case PlayerTtl | EmptyGameTtl | MasterClient => v.Int?
    case LobbyProperties => v.Strings?
  }

  predicate UpdatesLobby(f: Field) { f.MaxPlayers? || f.IsOpen? || f.LobbyProperties? }

  ghost predicate Typed(p: Props) { forall f: Field :: f in p.known && HasType(f, p.known[f]) }

  /** The update says something about `f` that is heeded. */
  predicate Sets(u: Update, rules: Rules, f: Field) {
    Known(f) in u && HasType(f, u[Known(f)]) && (f.MasterClient? ==> rules.allowChangeMaster)
  }

  /** What an update makes of the properties, key by key. */
  function Merged(p: Props, u: Update, rules: Rules): Props {
    Props(map f | f in p.known :: if Sets(u, rules, f) then u[Known(f)] else p.known[f],
          map k | k in p.custom.Keys + u.Keys && (k in p.custom || k.Custom?) && !(k.NullKey? && k in u && rules.deleteNull)
            :: if k in u && k.Custom? then u[k] else p.custom[k])
  }

  /** The update's entry for `k` makes a difference. */
  predicate Changes(p: Props, k: Key, v: Value, rules: Rules) {
    match k
    case Known(f) => HasType(f, v) && (f.MasterClient? ==> rules.allowChangeMaster) && f in p.known && p.known[f] != v
    case Custom(_) => k !in p.custom || p.custom[k] != v
    case NullKey => rules.deleteNull && k in p.custom
    case Unknown(_) => false
  }

  predicate ForLobby(k: Key) { k.Known? && UpdatesLobby(k.field) }

  ghost predicate AnyChange(p: Props, u: Update, rules: Rules) {
    exists k <- u :: Changes(p, k, u[k], rules)
  }

  ghost predicate LobbyChange(p: Props, u: Update, rules: Rules) {
    exists k <- u :: Changes(p, k, u[k], rules) && ForLobby(k)
  }

  class Store {
    var known: map<Field, Value>
    var custom: map<Key, Value>
    var revision: nat

    ghost function State(): Props reads this { Props(known, custom) }

    /** The result does not depend on the order of the walk. The revision counts exactly the updates that
        changed something, and the lobby hears exactly of changes that it shows. A room that stops being visible is
        first reported as deleted. */
    method Insert(update: Update, rules: Rules) returns (tellLobby: bool, tellDeleted: bool)
      requires Typed(State())
      modifies this
      ensures Typed(State()) && State() == Merged(old(State()), update, rules)
      ensures revision == old(revision) + (if State() != old(State()) then 1 else 0)
      ensures tellLobby <==> known[MaxPlayers] != old(known)[MaxPlayers] || known[IsOpen] != old(known)[IsOpen]
                             || known[LobbyProperties] != old(known)[LobbyProperties] || known[IsVisible] != old(known)[IsVisible]
      ensures tellDeleted <==> old(known)[IsVisible] == Bool(true) && known[IsVisible] == Bool(false)
    {
      var wasVisible, changed := known[IsVisible], false;
      tellLobby := false;
      ghost var p := State();
      var todo := update.Keys;
      assert Visited(update, todo) == map[];
      while todo != {}
        invariant todo <= update.Keys
        invariant Typed(State()) && State() == Merged(p, Visited(update, todo), rules)
        invariant revision == old(revision)
        invariant changed <==> AnyChange(p, Visited(update, todo), rules)
        invariant tellLobby <==> LobbyChange(p, Visited(update, todo), rules)
      {
        var key :| key in todo;
        MergedOne(p, Visited(update, todo), key, update[key], rules);
        VisitedNext(update, todo, key);
        var c, t := InsertOne(key, update[key], rules);
        changed, tellLobby := changed || c, tellLobby || t;
        todo := todo - {key};
      }
      assert Visited(update, {}) == update;
      ChangesExactly(p, update, rules);
      if changed { revision := revision + 1; }
      tellDeleted := wasVisible != known[IsVisible] && wasVisible.b;
      tellLobby := tellLobby || wasVisible != known[IsVisible];
    }

    method InsertOne(key: Key, value: Value, rules: Rules) returns (changed: bool, tellLobby: bool)
      requires Typed(State())
      modifies this`known, this`custom
      ensures Typed(State()) && State() == Merged(old(State()), map[key := value], rules)
      ensures changed <==> Changes(old(State()), key, value, rules)
      ensures tellLobby <==> changed && ForLobby(key)
    {
      changed, tellLobby := false, false;
      match key
      case Known(f) =>
        if (f.MasterClient? ==> rules.allowChangeMaster) && HasType(f, value) {
          changed := known[f] != value;
          tellLobby := changed && UpdatesLobby(f);
          known := known[f := value];
        }
      case Unknown(_) =>
      case Custom(_) =>
        changed := key !in custom || custom[key] != value;
        custom := custom[key := value];
      case NullKey =>
        if rules.deleteNull && key in custom {
          custom := custom - {key};
          changed := true;
        }
    }
  }

  /** The entries of an update that a walk with `todo` still before it has visited. */
  function Visited(u: Update, todo: set<Key>): Update {
    map k | k in u && k !in todo :: u[k]
  }

  lemma VisitedNext(u: Update, todo: set<Key>, k: Key)
    requires k in todo && todo <= u.Keys
    ensures Visited(u, todo - {k}) == Visited(u, todo)[k := u[k]]
  {}

  lemma MergedOne(p: Props, u: Update, k: Key, v: Value, rules: Rules)
    requires k !in u
    ensures Merged(Merged(p, u, rules), map[k := v], rules) == Merged(p, u[k := v], rules)
    ensures var c := Changes(Merged(p, u, rules), k, v, rules);
      && (AnyChange(p, u[k := v], rules) <==> AnyChange(p, u, rules) || c)
      && (LobbyChange(p, u[k := v], rules) <==> LobbyChange(p, u, rules) || (c && ForLobby(k)))
  {
    ChangesAlone(p, u, k, v, rules);
    MergedBoth(p, u, map[k := v], rules);
    assert u + map[k := v] == u[k := v];
    var w := u[k := v];
    assert forall j <- u :: j in w && w[j] == u[j];
    assert k in w && w[k] == v;
  }

  lemma ChangesAlone(p: Props, u: Update, k: Key, v: Value, rules: Rules)
    requires k !in u
    ensures Changes(Merged(p, u, rules), k, v, rules) <==> Changes(p, k, v, rules)
  {}

  /** An update changes the properties exactly if one of its entries does, and what the lobby shows
      exactly if one of those entries is shown. */
  lemma ChangesExactly(p: Props, u: Update, rules: Rules)
    requires Typed(p)
    ensures Merged(p, u, rules) != p <==> AnyChange(p, u, rules)
    ensures (exists f: Field :: UpdatesLobby(f) && Merged(p, u, rules).known[f] != p.known[f])
            <==> LobbyChange(p, u, rules)
  {
    var q := Merged(p, u, rules);
    if k :| k in u && Changes(p, k, u[k], rules) { ChangeShows(p, u, k, rules); }
    if k :| k in u && Changes(p, k, u[k], rules) && ForLobby(k) { assert q.known[k.field] != p.known[k.field]; }
    if f: Field :| q.known[f] != p.known[f] { assert Changes(p, Known(f), u[Known(f)], rules); }
    if f: Field :| UpdatesLobby(f) && q.known[f] != p.known[f] { assert Changes(p, Known(f), u[Known(f)], rules) && ForLobby(Known(f)); }
    if forall k <- u :: !Changes(p, k, u[k], rules) { NoChangeShows(p, u, rules); }
  }

  lemma ChangeShows(p: Props, u: Update, k: Key, rules: Rules)
    requires k in u && Changes(p, k, u[k], rules)
    ensures Merged(p, u, rules) != p
  {
    var q := Merged(p, u, rules);
    match k
    case Known(f) => assert q.known[f] != p.known[f];
    case Custom(_) => assert k in q.custom && q.custom[k] == u[k];
    case NullKey => assert k !in q.custom;
  }

  lemma NoChangeShows(p: Props, u: Update, rules: Rules)
    requires forall k <- u :: !Changes(p, k, u[k], rules)
    ensures Merged(p, u, rules) == p
  {
    var q := Merged(p, u, rules);
    forall f | f in p.known ensures q.known[f] == p.known[f] {
      if Known(f) in u { assert !Changes(p, Known(f), u[Known(f)], rules); }
    }
    assert q.known == p.known;
    forall k ensures k in q.custom <==> k in p.custom {}
    assert q.custom == p.custom;
  }

  /** Each field takes the value that the update has for it if that is of the field's type, which nulls never are, and
      the master client only where that may be changed. All other keys but those of bytes and null are taken as they come. */
  lemma MergedReads(p: Props, u: Update, rules: Rules)
    requires Typed(p) && forall k <- p.custom :: k.Custom?
    ensures var q := Merged(p, u, rules); var heeded := (f: Field) => Known(f) in u;
      && q.known[MaxPlayers] == (if heeded(MaxPlayers) && u[Known(MaxPlayers)].Byte? then u[Known(MaxPlayers)] else p.known[MaxPlayers])
      && q.known[IsVisible] == (if heeded(IsVisible) && u[Known(IsVisible)].Bool? then u[Known(IsVisible)] else p.known[IsVisible])
      && q.known[IsOpen] == (if heeded(IsOpen) && u[Known(IsOpen)].Bool? then u[Known(IsOpen)] else p.known[IsOpen])
      && q.known[PlayerTtl] == (if heeded(PlayerTtl) && u[Known(PlayerTtl)].Int? then u[Known(PlayerTtl)] else p.known[PlayerTtl])
      && q.known[EmptyGameTtl] == (if heeded(EmptyGameTtl) && u[Known(EmptyGameTtl)].Int? then u[Known(EmptyGameTtl)] else p.known[EmptyGameTtl])
      && q.known[MasterClient] == (if heeded(MasterClient) && u[Known(MasterClient)].Int? && rules.allowChangeMaster
                                   then u[Known(MasterClient)] else p.known[MasterClient])
      && q.known[LobbyProperties] == (if heeded(LobbyProperties) && u[Known(LobbyProperties)].Strings?
                                      then u[Known(LobbyProperties)] else p.known[LobbyProperties])
      && (forall k :: k in q.custom <==> k.Custom? && (k in u || k in p.custom))
      && (forall k <- q.custom :: q.custom[k] == if k in u then u[k] else p.custom[k])
  {}

  /** Applying the same update again changes nothing, so an update that comes back as an echo dies out. */
  lemma MergedTwice(p: Props, u: Update, rules: Rules)
    ensures Merged(Merged(p, u, rules), u, rules) == Merged(p, u, rules)
  {}

  /** Updates of different keys can be applied one after another, in either order, or together. */
  lemma MergedCommutes(p: Props, u: Update, v: Update, rules: Rules)
    requires u.Keys !! v.Keys
    ensures Merged(Merged(p, u, rules), v, rules) == Merged(p, u + v, rules)
    ensures Merged(Merged(p, v, rules), u, rules) == Merged(p, u + v, rules)
  {
    MergedBoth(p, u, v, rules);
    MergedBoth(p, v, u, rules);
    assert u + v == v + u;
  }

  lemma MergedBoth(p: Props, u: Update, v: Update, rules: Rules)
    requires u.Keys !! v.Keys
    ensures Merged(Merged(p, u, rules), v, rules) == Merged(p, u + v, rules)
  {
    var a, b := Merged(Merged(p, u, rules), v, rules), Merged(p, u + v, rules);
    assert a.known == b.known;
    assert a.custom.Keys == b.custom.Keys;
    assert a.custom == b.custom;
  }

  /** The deletion of null properties looks for null keys, and no null key is ever stored: nothing is ever deleted. */
  lemma NothingDeleted(p: Props, u: Update, rules: Rules)
    requires forall k <- p.custom :: k.Custom?
    ensures p.custom.Keys <= Merged(p, u, rules).custom.Keys && forall k <- Merged(p, u, rules).custom :: k.Custom?
  {}
}
