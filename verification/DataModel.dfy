/** Requests are decoded by a table with one entry per wire key, in a single pass over their parameters. */
module DataModel {
  import opened Sequences

  type Key = k: nat | k < 256

  /** A value is null or of some wire type. */
  datatype Value = Null | Val(kind: nat, payload: int)

  /** An enumeration has `members`. */
  datatype Spec = Spec(key: Key, kind: nat, optional: bool, default: Option<int>, members: Option<set<int>>)

  datatype Error = Missing | RequiredNull | TypeMismatch | InvalidEnum

  type Params = map<Key, Value>

  type Specs = seq<Spec>

  /** A decoded field. Only optional fields may be empty. */
  type Field = Option<int>

  datatype Decoded = View(fields: seq<Field>) | Failed(spec: nat, error: Error)

  const EMPTY_VALUE: int := 0

  function Initial(s: Spec): Field {
    if s.default.Some? then s.default else if s.optional then None else Some(EMPTY_VALUE)
  }

  predicate ValidEnum(s: Spec, v: int) { s.members.Some? ==> v in s.members.value }

  // ----- what decoding means

  datatype One = Ok(field: Field) | Err(error: Error)

  /** One parameter by itself, given what the request says under its key. */
  function DecodeOne(s: Spec, src: Option<Value>): One {
    match src
    case None => if s.optional || s.default.Some? then Ok(Initial(s)) else Err(Missing)
    case Some(Null) => if s.optional then Ok(None) else if s.default.Some? then Ok(Initial(s)) else Err(RequiredNull)
    case Some(Val(kind, v)) => if kind != s.kind then Err(TypeMismatch) else if !ValidEnum(s, v) then Err(InvalidEnum) else Ok(Some(v))
  }

  /** Of several parameters with one key, the table knows the last. */
  ghost predicate Heard(specs: Specs, i: nat)
    requires i < |specs|
  {
    forall j :: i < j < |specs| ==> specs[j].key != specs[i].key
  }

  ghost function Source(specs: Specs, params: Params, i: nat): Option<Value>
    requires i < |specs|
  {
    if Heard(specs, i) && specs[i].key in params then Some(params[specs[i].key]) else None
  }

  /** The parameters one by one in the order of their declaration, the first error deciding. */
  ghost predicate Means(specs: Specs, params: Params, d: Decoded) {
    match d
    case View(fields) => |fields| == |specs| && forall i :: 0 <= i < |specs| ==> DecodeOne(specs[i], Source(specs, params, i)) == Ok(fields[i])
    case Failed(n, e) => n < |specs| && DecodeOne(specs[n], Source(specs, params, n)) == Err(e)
                         && forall i :: 0 <= i < n ==> DecodeOne(specs[i], Source(specs, params, i)).Ok?
  }

  /** There is exactly one decoding. */
  lemma MeansOnce(specs: Specs, params: Params, d: Decoded, e: Decoded)
    requires Means(specs, params, d) && Means(specs, params, e)
    ensures d == e
  {
    if d.View? && e.View? {
      assert forall i :: 0 <= i < |specs| ==> Ok(d.fields[i]) == DecodeOne(specs[i], Source(specs, params, i)) == Ok(e.fields[i]);
      assert d.fields == e.fields;
    }
  }

  // ----- what requests say, and what comes of it

  /** What a request says about a parameter: `Unsaid` when it does not have the key or the key means a later parameter. */
  datatype Saying = Unsaid | SaidNull | Said(kind: nat, value: int)

  ghost function Says(specs: Specs, params: Params, i: nat): Saying
    requires i < |specs|
  {
    var k := specs[i].key;
    if k !in params || exists j :: i < j < |specs| && specs[j].key == k then Unsaid
    else if params[k].Null? then SaidNull else Said(params[k].kind, params[k].payload)
  }

  ghost predicate IsMissing(s: Spec, said: Saying) { said.Unsaid? && !s.optional && s.default.None? }

  ghost predicate IsRequiredNull(s: Spec, said: Saying) { said.SaidNull? && !s.optional && s.default.None? }

  ghost predicate IsOfOtherKind(s: Spec, said: Saying) { said.Said? && said.kind != s.kind }

  ghost predicate IsNoMember(s: Spec, said: Saying) {
    said.Said? && said.kind == s.kind && s.members.Some? && said.value !in s.members.value
  }

  ghost predicate IsWrong(s: Spec, said: Saying) {
    IsMissing(s, said) || IsRequiredNull(s, said) || IsOfOtherKind(s, said) || IsNoMember(s, said)
  }

  lemma OneIs(specs: Specs, params: Params, i: nat)
    requires i < |specs|
    ensures var s, said, one := specs[i], Says(specs, params, i), DecodeOne(specs[i], Source(specs, params, i));
      && (one == Err(Missing) <==> IsMissing(s, said)) && (one == Err(RequiredNull) <==> IsRequiredNull(s, said))
      && (one == Err(TypeMismatch) <==> IsOfOtherKind(s, said)) && (one == Err(InvalidEnum) <==> IsNoMember(s, said))
      && (one.Ok? && said.Unsaid? ==> one.field == s.default) && (one.Ok? && said.Said? ==> one.field == Some(said.value))
      && (one.Ok? && said.SaidNull? ==> one.field == if s.optional then None else s.default)
  {
    if Heard(specs, i) {
      assert !exists j :: i < j < |specs| && specs[j].key == specs[i].key;
    }
  }

  /** A request is accepted exactly if nothing it says, or does not say, about a parameter is wrong. Its fields then hold
      what was said; what was left unsaid, or was said to be null of a field that cannot be empty, has its default. */
  lemma AcceptedExactly(specs: Specs, params: Params, d: Decoded)
    requires Means(specs, params, d)
    ensures d.View? <==> forall i :: 0 <= i < |specs| ==> !IsWrong(specs[i], Says(specs, params, i))
    ensures d.View? ==> |d.fields| == |specs| && forall i :: 0 <= i < |specs| ==>
              match Says(specs, params, i)
              case Unsaid => d.fields[i] == specs[i].default
              case SaidNull => d.fields[i] == if specs[i].optional then None else specs[i].default
              case Said(_, v) => d.fields[i] == Some(v)
  {
    forall i | 0 <= i < |specs|
      ensures DecodeOne(specs[i], Source(specs, params, i)).Ok? <==> !IsWrong(specs[i], Says(specs, params, i))
    {
      OneIs(specs, params, i);
    }
    if d.View? {
      forall i | 0 <= i < |specs|
        ensures match Says(specs, params, i)
                case Unsaid => d.fields[i] == specs[i].default
                case SaidNull => d.fields[i] == if specs[i].optional then None else specs[i].default
                case Said(_, v) => d.fields[i] == Some(v)
      {
        OneIs(specs, params, i);
      }
    }
  }

  /** A request is refused because of the first parameter about which it says something wrong, and the error tells what. */
  lemma RefusedExactly(specs: Specs, params: Params, d: Decoded, n: nat, e: Error)
    requires Means(specs, params, d)
    ensures d == Failed(n, e) <==>
            && n < |specs| && (forall i :: 0 <= i < n ==> !IsWrong(specs[i], Says(specs, params, i)))
            && match e
               case Missing => IsMissing(specs[n], Says(specs, params, n))
               case RequiredNull => IsRequiredNull(specs[n], Says(specs, params, n))
               case TypeMismatch => IsOfOtherKind(specs[n], Says(specs, params, n))
               case InvalidEnum => IsNoMember(specs[n], Says(specs, params, n))
  {
    forall i | 0 <= i < |specs|
      ensures DecodeOne(specs[i], Source(specs, params, i)).Ok? <==> !IsWrong(specs[i], Says(specs, params, i))
    {
      OneIs(specs, params, i);
    }
    if n < |specs| {
      OneIs(specs, params, n);
      if DecodeOne(specs[n], Source(specs, params, n)) == Err(e) && forall i :: 0 <= i < n ==> !IsWrong(specs[i], Says(specs, params, i)) {
        MeansOnce(specs, params, d, Failed(n, e));
      }
    }
  }

  /** Requests that differ in unknown keys alone are decoded alike. */
  lemma UnknownIgnored(specs: Specs, params: Params, others: Params, d: Decoded)
    requires Means(specs, params, d)
    requires forall s <- specs :: (s.key in params <==> s.key in others) && (s.key in params ==> params[s.key] == others[s.key])
    ensures Means(specs, others, d)
  {
    assert forall i :: 0 <= i < |specs| ==> specs[i] in specs && Source(specs, params, i) == Source(specs, others, i);
  }

  // ----- how it is done

  method MakeHandlers(specs: Specs) returns (handlers: seq<Option<nat>>)
    ensures |handlers| == 256
    ensures forall k: Key :: match handlers[k]
                             case None => forall i :: 0 <= i < |specs| ==> specs[i].key != k
                             case Some(i) => i < |specs| && specs[i].key == k && Heard(specs, i)
  {
    handlers := seq(256, _ => None);
    for n := 0 to |specs|
      invariant |handlers| == 256
      invariant forall k: Key :: match handlers[k]
                                 case None => forall i :: 0 <= i < n ==> specs[i].key != k
                                 case Some(i) => i < n && specs[i].key == k && forall j :: i < j < n ==> specs[j].key != k
    {
      handlers := handlers[specs[n].key := Some(n)];
    }
  }

  /** What the pass has noted about parameter `i` when it has visited the keys in `done`. */
  ghost predicate Noted(specs: Specs, params: Params, done: set<Key>, i: nat, field: Field, seen: bool, err: Option<Error>)
    requires i < |specs|
  {
    var src := Source(specs, params, i);
    if src.Some? && specs[i].key in done
    then seen && match DecodeOne(specs[i], src) case Ok(f) => field == f && err == None case Err(e) => err == Some(e)
    else !seen && err == None && field == Initial(specs[i])
  }

  method DecodeOneInto(s: Spec, src: Value, field: Field) returns (next: Field, err: Option<Error>)
    requires field == Initial(s)
    ensures match DecodeOne(s, Some(src)) case Ok(f) => next == f && err == None case Err(e) => err == Some(e)
  {
    next, err := field, None;
    if src.Null? {
      if s.optional { next := None; } else if s.default == None { err := Some(RequiredNull); }
      return;
    }
    if src.kind != s.kind { return next, Some(TypeMismatch); }
    if !ValidEnum(s, src.payload) { return next, Some(InvalidEnum); }
    next := Some(src.payload);
  }

  /** The single pass and the check after it find the one decoding, in whatever order the parameters come. */
  method Decode(specs: Specs, params: Params) returns (d: Decoded)
    ensures Means(specs, params, d)
  {
    var handlers := MakeHandlers(specs);
    var fields := seq(|specs|, i requires 0 <= i < |specs| => Initial(specs[i]));
    var seen := seq(|specs|, _ => false);
    var errs: seq<Option<Error>> := seq(|specs|, _ => None);
    var todo := params.Keys;
    while todo != {}
      invariant todo <= params.Keys && |fields| == |seen| == |errs| == |specs|
      invariant forall i :: 0 <= i < |specs| ==> Noted(specs, params, params.Keys - todo, i, fields[i], seen[i], errs[i])
    {
      var k :| k in todo;
      var h := handlers[k];
      if h.Some? {
        var i := h.value;
        assert Noted(specs, params, params.Keys - todo, i, fields[i], seen[i], errs[i]);
        var field, err := DecodeOneInto(specs[i], params[k], fields[i]);
        fields, seen, errs := fields[i := field], seen[i := true], errs[i := err];
      }
      todo := todo - {k};
    }
    for i := 0 to |specs|
      invariant forall j :: 0 <= j < i ==> DecodeOne(specs[j], Source(specs, params, j)) == Ok(fields[j])
    {
      assert Noted(specs, params, params.Keys, i, fields[i], seen[i], errs[i]);
      if errs[i].Some? { return Failed(i, errs[i].value); }
      if !seen[i] && !specs[i].optional && specs[i].default == None { return Failed(i, Missing); }
    }
    return View(fields);
  }

  // ----- encoding

  /** The parameters that the first `n` fields write, or `None` if one of them cannot be written. */
  function Encoded(specs: Specs, fields: seq<Field>, n: nat): Option<Params>
    requires n <= |specs| == |fields|
  {
    if n == 0 then Some(map[])
    else
      var before, s := Encoded(specs, fields, n - 1), specs[n - 1];
      match (before, fields[n - 1])
      case (None, _) => None
      case (_, None) => before
      case (Some(p), Some(v)) => if ValidEnum(s, v) then Some(p[s.key := Val(s.kind, v)]) else None
  }

  method Encode(specs: Specs, fields: seq<Field>) returns (r: Option<Params>)
    requires |fields| == |specs|
    ensures r == Encoded(specs, fields, |specs|)
  {
    r := Some(map[]);
    for i := 0 to |specs|
      invariant r == Encoded(specs, fields, i)
    {
      if r.Some? && fields[i].Some? {
        var v := fields[i].value;
        r := if ValidEnum(specs[i], v) then Some(r.value[specs[i].key := Val(specs[i].kind, v)]) else None;
      }
    }
  }

  /** What the types of a model's fields guarantee, and that its enumerations hold members. */
  predicate Conforms(specs: Specs, fields: seq<Field>) {
    && |fields| == |specs|
    && forall i :: 0 <= i < |specs| ==> (specs[i].optional || fields[i].Some?) && (fields[i].Some? ==> ValidEnum(specs[i], fields[i].value))
  }

  predicate DistinctKeys(specs: Specs) { forall i, j :: 0 <= i < j < |specs| ==> specs[i].key != specs[j].key }

  lemma {:induction false} EncodedHas(specs: Specs, fields: seq<Field>, n: nat)
    requires Conforms(specs, fields) && DistinctKeys(specs) && n <= |specs|
    ensures Encoded(specs, fields, n).Some?
    ensures var p := Encoded(specs, fields, n).value;
      && (forall i :: 0 <= i < n ==> if fields[i].Some? then specs[i].key in p && p[specs[i].key] == Val(specs[i].kind, fields[i].value)
                                     else specs[i].key !in p)
      && (forall i :: n <= i < |specs| ==> specs[i].key !in p)
  {
    if n > 0 { EncodedHas(specs, fields, n - 1); }
  }

  /** A model that the encoder refuses holds something that is not a member of its enumeration. */
  lemma {:induction false} EncodeFails(specs: Specs, fields: seq<Field>, n: nat)
    requires n <= |specs| == |fields|
    ensures Encoded(specs, fields, n) == None <==> exists i :: 0 <= i < n && fields[i].Some? && !ValidEnum(specs[i], fields[i].value)
  {
    if n > 0 { EncodeFails(specs, fields, n - 1); }
  }

  /** Nothing is left empty that has a default to fall back on. */
  predicate DefaultsFilled(specs: Specs, fields: seq<Field>)
    requires |fields| == |specs|
  {
    forall i :: 0 <= i < |specs| && specs[i].optional && specs[i].default.Some? ==> fields[i].Some?
  }

  /** Encoding and decoding restores a model, exactly if no optional field with a default is empty:
      such a field comes back holding its default. */
  lemma RoundTrip(specs: Specs, fields: seq<Field>, d: Decoded)
    requires Conforms(specs, fields) && DistinctKeys(specs)
    requires Encoded(specs, fields, |specs|).Some? && Means(specs, Encoded(specs, fields, |specs|).value, d)
    ensures d.View? && (d.fields == fields <==> DefaultsFilled(specs, fields))
    ensures forall i :: 0 <= i < |specs| ==> d.fields[i] == if fields[i].Some? then fields[i] else specs[i].default
  {
    EncodedHas(specs, fields, |specs|);
    var p := Encoded(specs, fields, |specs|).value;
    forall i | 0 <= i < |specs|
      ensures DecodeOne(specs[i], Source(specs, p, i)) == Ok(if fields[i].Some? then fields[i] else specs[i].default)
    {
      assert Heard(specs, i);
    }
    if !DefaultsFilled(specs, fields) {
      var i :| 0 <= i < |specs| && specs[i].optional && specs[i].default.Some? && fields[i] == None;
      assert d.fields[i] != fields[i];
    }
  }
}
