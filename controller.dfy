/** The older base class `GeneralizedApi::Controller`: the same parameter
    registry with differently typed keys and no de-duplication, three
    callback lists per class that ignore their options, the order in
    which an action runs its callbacks, the plural/singular merge of
    allowed lists, the lenient whitelist and the configurable envelope. */
module Controller {
  import opened Ruby
  import opened Support
  import opened Settings
  import opened Request
  import opened Response
  import opened Query
  import opened Registration
  import opened Dispatch

  // ---------------------------------------------------------------------
  // Registration

  /** The registry key of a Hash entry: `key.to_s.singularize.to_sym`. */
  function EntryKey(inf: Inflector): string -> Key
  {
    s => SymKey(inf.singularize(s))
  }

  /** The registry key of a list registration on `cls`: the controlled
      resource name, kept as a String. */
  function ListKey(inf: Inflector, cls: ClassName): Key
  {
    StrKey(ControlledResourceName(inf, cls))
  }

  /** `permit_params(param)` on the registry `m`. */
  function PermitSpec(m: Registry<Key>, inf: Inflector, cls: ClassName, param: Value): Registered<Key>
  {
    match param
    case Hash(pairs) => AppendPairs(m, pairs, EntryKey(inf))
    case Arr(items) =>
      var p := AppendEachCreating(m, ListKey(inf, cls), items);
      Registered(p.params, if p.stoppedAt.Some? then Some(NoToSym(ClassOf(p.stoppedAt.value))) else None)
    case Str(_) => Registered(Append(m, ListKey(inf, cls), ToSym(param)), None)
    case Symbol(_) => Registered(Append(m, ListKey(inf, cls), ToSym(param)), None)
    case _ => Registered(m, Some(Unpermittable(ClassOf(param))))
  }

  /** No field can make `Collected` reach a key that no entry maps to. */
  lemma CollectedOnlyFromEntries<K>(pairs: seq<(string, Value)>, keyOf: string -> K, k: K)
    requires AllWellFormed(pairs)
    requires forall i :: 0 <= i < |pairs| ==> keyOf(pairs[i].0) != k
    ensures Collected(pairs, keyOf, k) == []
  {
    if Collected(pairs, keyOf, k) != [] {
      CollectedFromEntry(pairs, keyOf, k);
    }
  }

  /** A Hash registration appends, under each entry's singularised symbol
      key, that entry's fields in order, duplicates kept. No String key,
      and so no list registered from an Array, Symbol or String, changes. */
  lemma HashRegistration(m: Registry<Key>, inf: Inflector, cls: ClassName, pairs: seq<(string, Value)>, k: Key)
    requires AllWellFormed(pairs)
    ensures var r := PermitSpec(m, inf, cls, Hash(pairs));
            && r.error.None?
            && Lookup(r.params, k) == Lookup(m, k) + Collected(pairs, EntryKey(inf), k)
            && (k.StrKey? ==> Lookup(r.params, k) == Lookup(m, k) && (k in r.params <==> k in m))
            && (k in r.params && k !in m ==> exists i :: 0 <= i < |pairs| && k == SymKey(inf.singularize(pairs[i].0)))
  {
    AppendPairsLookup(m, pairs, EntryKey(inf), k);
    AppendPairsHas(m, pairs, EntryKey(inf), k);
    if k.StrKey? {
      CollectedOnlyFromEntries(pairs, EntryKey(inf), k);
    }
    if k in AppendPairs(m, pairs, EntryKey(inf)).params && k !in m {
      CollectedFromEntry(pairs, EntryKey(inf), k);
    }
  }

  /** A list registration appends the fields as symbols under the class's
      String key; it succeeds exactly when every field has `to_sym`, and
      other keys are unchanged. */
  lemma ListRegistration(m: Registry<Key>, inf: Inflector, cls: ClassName, items: seq<Value>)
    ensures var r := PermitSpec(m, inf, cls, Arr(items));
            var k := ListKey(inf, cls);
            && (r.error.None? <==> AllHaveToSym(items))
            && (AllHaveToSym(items) ==> Lookup(r.params, k) == Lookup(m, k) + SymNames(items))
            && (k in r.params <==> k in m || items != [])
            && (forall k' :: k' != k ==> Lookup(r.params, k') == Lookup(m, k') && (k' in r.params <==> k' in m))
  {
  }

  /** Nothing removes duplicates: registering one field twice lists it twice. */
  lemma ListKeepsDuplicates(m: Registry<Key>, inf: Inflector, cls: ClassName, f: Value)
    requires HasToSym(f)
    ensures var r1 := PermitSpec(m, inf, cls, f);
            var r2 := PermitSpec(r1.params, inf, cls, f);
            r2.error.None? && Lookup(r2.params, ListKey(inf, cls)) == Lookup(m, ListKey(inf, cls)) + [ToSym(f), ToSym(f)]
  {
  }

  // ---------------------------------------------------------------------
  // Callbacks

  /** What happens while an action runs: a callback called by name, or
      the action's own body. */
  datatype Event = Called(name: Sym) | Body

  /** The events of a run in order, and the name that raised
      `NoMethodError` if one did (the run stops there). */
  datatype Run = Run(trace: seq<Event>, undefined: Option<Sym>)

  /** How an action's body left the block it gives `callback_structure`:
      by falling through to its end, or by an explicit `return`, which
      leaves the action itself. */
  datatype BodyExit = FallsThrough | ReturnsEarly

  function Calls(names: seq<Sym>): (r: seq<Event>)
    ensures |r| == |names| && forall i :: 0 <= i < |names| ==> r[i] == Called(names[i])
  {
    seq(|names|, i requires 0 <= i < |names| => Called(names[i]))
  }

  /** The position of the first name no method answers to, or the length
      of the list when every name is defined. */
  function FirstUndefined(defined: set<Sym>, names: seq<Sym>): (j: nat)
    ensures j <= |names|
    ensures forall i :: 0 <= i < j ==> names[i] in defined
    ensures j < |names| ==> names[j] !in defined
    decreases |names|
  {
    if names == [] || names[0] !in defined then 0
    else
      var j := FirstUndefined(defined, names[1..]);
      assert forall i :: 1 <= i < |names| ==> names[i] == names[1..][i - 1];
      1 + j
  }

  /** `names.each { |n| send(n) }`: the calls up to the first undefined
      name, which raises. */
  function Invoke(defined: set<Sym>, names: seq<Sym>): (r: Run)
    ensures r.undefined.None? <==> forall i :: 0 <= i < |names| ==> names[i] in defined
    ensures r.undefined.Some? ==> r.undefined.value in names && r.undefined.value !in defined
    ensures |r.trace| <= |names| && r.trace == Calls(names[..|r.trace|])
    ensures |r.trace| == FirstUndefined(defined, names)
    ensures forall i :: 0 <= i < |r.trace| ==> names[i] in defined
    ensures r.undefined.None? ==> r.trace == Calls(names)
    ensures r.undefined.Some? ==> |r.trace| < |names| && r.undefined.value == names[|r.trace|]
  {
    var j := FirstUndefined(defined, names);
    Run(Calls(names[..j]), if j < |names| then Some(names[j]) else None)
  }

  /** `callback_structure { body }` for a class whose record is `rec`: the
      before-callbacks, the body, then the after-callbacks unless the body
      returned early; the first undefined callback ends the run. */
  function Structure(rec: Callbacks<Sym>, defined: set<Sym>, exit: BodyExit): Run
  {
    var b := Invoke(defined, rec.before);
    if b.undefined.Some? then b
    else if exit == ReturnsEarly then Run(b.trace + [Body], None)
    else
      var a := Invoke(defined, rec.after);
      Run(b.trace + [Body] + a.trace, a.undefined)
  }

  /** With every callback defined, an action calls all before-callbacks in
      registration order, runs its body, then calls all after-callbacks in
      order, none of them when the body returned early. */
  lemma StructureOrder(rec: Callbacks<Sym>, defined: set<Sym>, exit: BodyExit)
    requires forall n :: n in rec.before ==> n in defined
    requires forall n :: n in rec.after ==> n in defined
    ensures Structure(rec, defined, exit)
         == Run(Calls(rec.before) + [Body] + (if exit == FallsThrough then Calls(rec.after) else []), None)
  {
    assert rec.before[..|rec.before|] == rec.before;
    assert rec.after[..|rec.after|] == rec.after;
    if exit == ReturnsEarly {
      assert Calls(rec.before) + [Body] + [] == Calls(rec.before) + [Body];
    }
  }

  /** The body runs exactly when every before-callback is defined, and it
      runs once, after every before-callback and before every after-callback. */
  lemma BodyRunsOnce(rec: Callbacks<Sym>, defined: set<Sym>, exit: BodyExit)
    ensures var r := Structure(rec, defined, exit);
            && (Body in r.trace <==> forall n :: n in rec.before ==> n in defined)
            && (forall i :: 0 <= i < |r.trace| && r.trace[i] == Body ==>
                  i == |rec.before| && forall j :: 0 <= j < |r.trace| && j != i ==> r.trace[j].Called?)
  {
    var b := Invoke(defined, rec.before);
    if b.undefined.None? {
      assert b.trace == Calls(rec.before) by {
        assert rec.before[..|rec.before|] == rec.before;
      }
    } else {
      assert forall i :: 0 <= i < |b.trace| ==> b.trace[i].Called?;
    }
  }

  /** `names.each { |n| send(n) }`, the loop both `before_callbacks` and
      `after_callbacks` run over their list. */
  method SendEach(defined: set<Sym>, names: seq<Sym>) returns (run: Run)
    ensures run == Invoke(defined, names)
  {
    var trace: seq<Event> := [];
    var i := 0;
    while i < |names|
      invariant 0 <= i <= |names|
      invariant forall j :: 0 <= j < i ==> names[j] in defined
      invariant trace == Calls(names[..i])
    {
      if names[i] !in defined {
        var j := FirstUndefined(defined, names);
        assert j == i;
        return Run(trace, Some(names[i]));
      }
      assert names[..i + 1][..i] == names[..i];
      trace := trace + [Called(names[i])];
      i := i + 1;
    }
    assert FirstUndefined(defined, names) == |names|;
    assert names[..i] == names;
    return Run(trace, None);
  }

  // ---------------------------------------------------------------------
  // The class-level registries

  /** The state `GeneralizedApi::Controller` keeps in class variables,
      shared by all its subclasses. */
  class ControllerState {
    /** `@@resource_params`: registry key => permitted field symbols */
    var resourceParams: Registry<Key>
    /** `@@callbacks`: controller class => its callback lists */
    var callbacks: map<ClassName, Callbacks<Sym>>

    constructor ()
      ensures resourceParams == map[] && callbacks == map[]
    {
      resourceParams := map[];
      callbacks := map[];
    }

    /** The callback lists of `cls`, empty when it registered none. */
    function Record(cls: ClassName): Callbacks<Sym>
      reads this
    {
      RecordOf(callbacks, cls)
    }

    /** `permit_params(param)` called on controller class `cls`. */
    method PermitParams(inf: Inflector, cls: ClassName, param: Value) returns (err: Option<RegError>)
      modifies this
      ensures var r := PermitSpec(old(resourceParams), inf, cls, param);
              resourceParams == r.params && err == r.error
      ensures callbacks == old(callbacks)
    {
      match param
      case Hash(pairs) =>
        err := RegisterPairs(inf, pairs);
      case Arr(items) =>
        var stopped := AppendListFields(ListKey(inf, cls), items);
        err := if stopped.Some? then Some(NoToSym(ClassOf(stopped.value))) else None;
      case Str(_) =>
        resourceParams := Append(resourceParams, ListKey(inf, cls), ToSym(param));
        err := None;
      case Symbol(_) =>
        resourceParams := Append(resourceParams, ListKey(inf, cls), ToSym(param));
        err := None;
      case _ =>
        err := Some(Unpermittable(ClassOf(param)));
    }

    /** The Hash branch: each entry's fields under its singularised symbol key. */
    method RegisterPairs(inf: Inflector, pairs: seq<(string, Value)>) returns (err: Option<RegError>)
      modifies this
      ensures var r := AppendPairs(old(resourceParams), pairs, EntryKey(inf));
              resourceParams == r.params && err == r.error
      ensures callbacks == old(callbacks)
    {
      var i := 0;
      while i < |pairs|
        invariant 0 <= i <= |pairs|
        invariant AppendPairs(old(resourceParams), pairs, EntryKey(inf))
               == AppendPairs(resourceParams, pairs[i..], EntryKey(inf))
        invariant callbacks == old(callbacks)
      {
        var key, fields := pairs[i].0, pairs[i].1;
        assert pairs[i..][0] == pairs[i] && pairs[i..][1..] == pairs[i + 1..];
        if !fields.Arr? {
          return Some(ArrayExpected(ClassOf(fields)));
        }
        var stopped := AppendFields(SymKey(inf.singularize(key)), fields.items);
        if stopped.Some? {
          return Some(InvalidParameterType(ClassOf(stopped.value), key));
        }
        i := i + 1;
      }
      return None;
    }

    /** `fields.each { |v| check v; list(k) ||= []; list(k) << v.to_sym }`,
        stopping at the first field that is neither String nor Symbol. */
    method AppendFields(k: Key, fields: seq<Value>) returns (stopped: Option<Value>)
      modifies this
      ensures var r := AppendEach(old(resourceParams), k, fields);
              resourceParams == r.params && stopped == r.stoppedAt
      ensures callbacks == old(callbacks)
    {
      var j := 0;
      while j < |fields|
        invariant 0 <= j <= |fields|
        invariant AppendEach(old(resourceParams), k, fields) == AppendEach(resourceParams, k, fields[j..])
        invariant callbacks == old(callbacks)
      {
        var v := fields[j];
        assert fields[j..][0] == v && fields[j..][1..] == fields[j + 1..];
        if !HasToSym(v) {
          return Some(v);
        }
        resourceParams := Append(resourceParams, k, ToSym(v));
        j := j + 1;
      }
      return None;
    }

    /** The Array branch: `list(k) ||= []` before each `v.to_sym`, so a
        field without `to_sym` leaves the list created. */
    method AppendListFields(k: Key, fields: seq<Value>) returns (stopped: Option<Value>)
      modifies this
      ensures var r := AppendEachCreating(old(resourceParams), k, fields);
              resourceParams == r.params && stopped == r.stoppedAt
      ensures callbacks == old(callbacks)
    {
      var j := 0;
      while j < |fields|
        invariant 0 <= j <= |fields|
        invariant AppendEachCreating(old(resourceParams), k, fields) == AppendEachCreating(resourceParams, k, fields[j..])
        invariant callbacks == old(callbacks)
      {
        var v := fields[j];
        assert fields[j..][0] == v && fields[j..][1..] == fields[j + 1..];
        AppendEachCreatingStep(resourceParams, k, fields[j..]);
        resourceParams := resourceParams[k := Lookup(resourceParams, k)];  // `||= []`
        if !HasToSym(v) {
          return Some(v);
        }
        resourceParams := Append(resourceParams, k, ToSym(v));
        j := j + 1;
      }
      return None;
    }

    /** `before_action(method_name, options)` on class `cls`: the name at
        the end of its before-list; the options are not read. */
    method BeforeAction(cls: ClassName, methodName: Sym, options: Value)
      modifies this
      ensures callbacks == old(callbacks)[cls := old(Record(cls)).(before := old(Record(cls)).before + [methodName])]
      ensures resourceParams == old(resourceParams)
    {
      if cls !in callbacks {
        callbacks := callbacks[cls := NoCallbacks()];
      }
      var rec := callbacks[cls];
      callbacks := callbacks[cls := rec.(before := rec.before + [methodName])];
    }

    /** `apply_filter(method_name, options)` on class `cls`: the name at
        the end of its filter list; the options are not read. */
    method ApplyFilter(cls: ClassName, methodName: Sym, options: Value)
      modifies this
      ensures callbacks == old(callbacks)[cls := old(Record(cls)).(filter := old(Record(cls)).filter + [methodName])]
      ensures resourceParams == old(resourceParams)
    {
      if cls !in callbacks {
        callbacks := callbacks[cls := NoCallbacks()];
      }
      var rec := callbacks[cls];
      callbacks := callbacks[cls := rec.(filter := rec.filter + [methodName])];
    }

    /** `after_action(method_name, options)` on class `cls`: the name at
        the end of its after-list; the options are not read. */
    method AfterAction(cls: ClassName, methodName: Sym, options: Value)
      modifies this
      ensures callbacks == old(callbacks)[cls := old(Record(cls)).(after := old(Record(cls)).after + [methodName])]
      ensures resourceParams == old(resourceParams)
    {
      if cls !in callbacks {
        callbacks := callbacks[cls := NoCallbacks()];
      }
      var rec := callbacks[cls];
      callbacks := callbacks[cls := rec.(after := rec.after + [methodName])];
    }

    /** `filters(information)` in a controller of class `cls`: the value
        threaded through every registered filter, in registration order. */
    method Filters<T>(cls: ClassName, info: T, handlers: map<Sym, T -> T>) returns (r: Outcome<T>)
      ensures cls !in callbacks ==> r == Done(info)
      ensures r == Pipe(handlers, Record(cls).filter, info)
    {
      if cls !in callbacks {
        return Done(info);
      }
      var names := callbacks[cls].filter;
      var cur := info;
      var i := 0;
      while i < |names|
        invariant 0 <= i <= |names|
        invariant Pipe(handlers, names, info) == Pipe(handlers, names[i..], cur)
      {
        assert names[i..][0] == names[i] && names[i..][1..] == names[i + 1..];
        if names[i] !in handlers {
          return NoMethod(names[i]);
        }
        cur := handlers[names[i]](cur);
        i := i + 1;
      }
      return Done(cur);
    }

    /** `before_callbacks` in a controller of class `cls`. */
    method BeforeCallbacks(cls: ClassName, defined: set<Sym>) returns (run: Run)
      ensures run == Invoke(defined, Record(cls).before)
    {
      if cls !in callbacks {
        return Run([], None);
      }
      run := SendEach(defined, callbacks[cls].before);
    }

    /** `after_callbacks` in a controller of class `cls`. */
    method AfterCallbacks(cls: ClassName, defined: set<Sym>) returns (run: Run)
      ensures run == Invoke(defined, Record(cls).after)
    {
      if cls !in callbacks {
        return Run([], None);
      }
      run := SendEach(defined, callbacks[cls].after);
    }

    /** `callback_structure { body }` in a controller of class `cls`, for a
        body that leaves as `exit` says. */
    method CallbackStructure(cls: ClassName, defined: set<Sym>, exit: BodyExit) returns (run: Run)
      ensures run == Structure(Record(cls), defined, exit)
      ensures cls !in callbacks ==> run == Run([Body], None)
    {
      var b := BeforeCallbacks(cls, defined);
      if b.undefined.Some? {
        return b;
      }
      var trace := b.trace + [Body];
      if exit == ReturnsEarly {
        return Run(trace, None);
      }
      var a := AfterCallbacks(cls, defined);
      return Run(trace + a.trace, a.undefined);
    }
  }

  // ---------------------------------------------------------------------
  // Permitted parameters

  /** `permitted_params` with a `model` parameter: the list under the
      plural symbol, or else the one under the singular symbol, and the
      two concatenated when both exist. */
  function AllowedForModel(reg: Registry<Key>, model: string, inf: Inflector): (r: Option<seq<Sym>>)
    ensures var pk, sk := SymKey(inf.pluralize(model)), SymKey(inf.singularize(model));
            && (r.Some? <==> pk in reg || sk in reg)
            && (r.Some? ==> r.value == Lookup(reg, pk) + Lookup(reg, sk))
  {
    var pk, sk := SymKey(inf.pluralize(model)), SymKey(inf.singularize(model));
    if pk in reg && sk in reg then Some(reg[pk] + reg[sk])
    else if pk in reg then Some(reg[pk])
    else if sk in reg then Some(reg[sk])
    else None
  }

  /** The whitelist keeps a pair when its key is allowed and its value's
      exact class is approved. */
  predicate Keep(pair: (string, Value), allowed: seq<Sym>, approved: seq<RClass>)
  {
    pair.0 in allowed && ClassOf(pair.1) in approved
  }

  /** `hash.select { |k, v| allowed.include?(k.to_sym) && approved.include?(v.class) }` */
  function Whitelist(entries: seq<(string, Value)>, allowed: seq<Sym>, approved: seq<RClass>): (r: seq<(string, Value)>)
    ensures |r| <= |entries|
    ensures forall i :: 0 <= i < |r| ==> r[i] in entries && Keep(r[i], allowed, approved)
    ensures forall i :: 0 <= i < |entries| && Keep(entries[i], allowed, approved) ==> entries[i] in r
    decreases |entries|
  {
    if entries == [] then []
    else
      var rest := Whitelist(entries[1..], allowed, approved);
      assert forall i :: 1 <= i < |entries| ==> entries[i] == entries[1..][i - 1];
      if Keep(entries[0], allowed, approved) then [entries[0]] + rest else rest
  }

  /** Whitelisting twice keeps what whitelisting once kept. */
  lemma {:induction false} WhitelistIdempotent(entries: seq<(string, Value)>, allowed: seq<Sym>, approved: seq<RClass>)
    ensures Whitelist(Whitelist(entries, allowed, approved), allowed, approved) == Whitelist(entries, allowed, approved)
    decreases |entries|
  {
    if entries != [] {
      WhitelistIdempotent(entries[1..], allowed, approved);
      var rest := Whitelist(entries[1..], allowed, approved);
      if Keep(entries[0], allowed, approved) {
        assert ([entries[0]] + rest)[1..] == rest;
      }
    }
  }

  /** Hashes are whitelisted entry by entry: the result on `a + b` is the
      result on `a` followed by the result on `b`. */
  lemma {:induction false} WhitelistAppend(a: seq<(string, Value)>, b: seq<(string, Value)>, allowed: seq<Sym>, approved: seq<RClass>)
    ensures Whitelist(a + b, allowed, approved) == Whitelist(a, allowed, approved) + Whitelist(b, allowed, approved)
    decreases |a|
  {
    if a == [] {
      assert a + b == b;
    } else {
      assert (a + b)[0] == a[0];
      assert (a + b)[1..] == a[1..] + b;
      WhitelistAppend(a[1..], b, allowed, approved);
    }
  }

  /** What `permitted_params` yields. */
  datatype Permitted =
    | NotRequested                                  // the request has no entry under its resource key
    | Strong(resourceKey: string, allowed: Option<seq<Sym>>) // `params.require(key).permit(allowed)`
    | Selected(entries: seq<(string, Value)>)        // the lenient whitelist's result
    | NotAHash(got: RClass)                          // `to_unsafe_hash` sent to a value without it
    | NoAllowedList                                  // `include?` sent to a missing allowed list
    | ModelNotString(got: RClass)                    // inflections sent to a non-String model

  /** `select_permitted_params(params, allowed)` for the request entry
      under `rk`. Without strong parameters the entry must be a set of
      key-value pairs; a missing allowed list raises as soon as a pair is
      examined, so it raises for any pair and not for none. */
  function SelectPermittedParams(config: Config, p: Params, rk: string, allowed: Option<seq<Sym>>): (r: Permitted)
    requires rk in p
    ensures r.Strong? <==> config.useStrongParameters
    ensures r.Strong? ==> r == Strong(rk, allowed)
    ensures r.NotAHash? <==> !config.useStrongParameters && !p[rk].Hash?
    ensures r.NoAllowedList? <==> !config.useStrongParameters && p[rk].Hash? && allowed.None? && p[rk].entries != []
    ensures r.Selected? ==> forall i :: 0 <= i < |r.entries| ==>
              r.entries[i] in p[rk].entries && allowed.Some? && r.entries[i].0 in allowed.value
              && ClassOf(r.entries[i].1) in config.approvedParamClasses
    ensures r.Selected? && allowed.Some? ==> forall i :: 0 <= i < |p[rk].entries| ==>
              Keep(p[rk].entries[i], allowed.value, config.approvedParamClasses) ==> p[rk].entries[i] in r.entries
  {
    if config.useStrongParameters then Strong(rk, allowed)
    else
      var v := p[rk];
      if !v.Hash? then NotAHash(ClassOf(v))
      else if allowed.None? then (if v.entries == [] then Selected([]) else NoAllowedList)
      else Selected(Whitelist(v.entries, allowed.value, config.approvedParamClasses))
  }

  /** `permitted_params` on the registry `reg`, for a controller of class `cls`. */
  function PermittedParams(config: Config, reg: Registry<Key>, p: Params, inf: Inflector, cls: ClassName): (r: Permitted)
    ensures r.ModelNotString? <==> ModelOf(p).BadModel?
    ensures r.NotRequested? <==> !ModelOf(p).BadModel? && inf.resourceKey(ModelName(ModelOf(p)), cls) !in p
  {
    var model := ModelOf(p);
    if model.BadModel? then ModelNotString(model.got)
    else
      var rk := inf.resourceKey(ModelName(model), cls);
      if rk !in p then NotRequested
      else
        var allowed :=
          if model.Model? then AllowedForModel(reg, model.name, inf)
          else if StrKey(rk) in reg then Some(reg[StrKey(rk)])
          else None;
        SelectPermittedParams(config, p, rk, allowed)
  }

  /** Fail-closed: in lenient mode every pair that gets through comes from
      the request's resource entry unchanged, has an approved class, and
      has a key registered for the model named (under its plural or
      singular symbol) or, with no model, under the resource key itself. */
  lemma PermittedFailsClosed(config: Config, reg: Registry<Key>, p: Params, inf: Inflector, cls: ClassName)
    ensures var r := PermittedParams(config, reg, p, inf, cls);
            var model := ModelOf(p);
            var rk := inf.resourceKey(ModelName(model), cls);
            r.Selected? ==> rk in p && forall i :: 0 <= i < |r.entries| ==>
              && r.entries[i] in p[rk].entries
              && ClassOf(r.entries[i].1) in config.approvedParamClasses
              && (model.Model? ==> r.entries[i].0 in Lookup(reg, SymKey(inf.pluralize(model.name)))
                                   || r.entries[i].0 in Lookup(reg, SymKey(inf.singularize(model.name))))
              && (model.NoModel? ==> r.entries[i].0 in Lookup(reg, StrKey(rk)))
  {
  }

  /** The converse of `PermittedFailsClosed`: in lenient mode every pair of
      the request's resource entry with an approved class and a key
      registered for the model (plural or singular) or, with no model,
      under the resource key itself, gets through. */
  lemma PermittedLetsThrough(config: Config, reg: Registry<Key>, p: Params, inf: Inflector, cls: ClassName)
    requires !config.useStrongParameters && !ModelOf(p).BadModel?
    requires var rk := inf.resourceKey(ModelName(ModelOf(p)), cls); rk in p && p[rk].Hash?
    ensures var model := ModelOf(p);
            var rk := inf.resourceKey(ModelName(model), cls);
            var r := PermittedParams(config, reg, p, inf, cls);
            forall e :: e in p[rk].entries && ClassOf(e.1) in config.approvedParamClasses
                        && (model.Model? ==> e.0 in Lookup(reg, SymKey(inf.pluralize(model.name)))
                                             || e.0 in Lookup(reg, SymKey(inf.singularize(model.name))))
                        && (model.NoModel? ==> e.0 in Lookup(reg, StrKey(rk)))
                     ==> r.Selected? && e in r.entries
  {
    var model := ModelOf(p);
    var rk := inf.resourceKey(ModelName(model), cls);
    var entries := p[rk].entries;
    forall e | e in entries && ClassOf(e.1) in config.approvedParamClasses
               && (model.Model? ==> e.0 in Lookup(reg, SymKey(inf.pluralize(model.name)))
                                    || e.0 in Lookup(reg, SymKey(inf.singularize(model.name))))
               && (model.NoModel? ==> e.0 in Lookup(reg, StrKey(rk)))
      ensures PermittedParams(config, reg, p, inf, cls).Selected? && e in PermittedParams(config, reg, p, inf, cls).entries
    {
      var i :| 0 <= i < |entries| && entries[i] == e;
    }
  }

  /** With strong parameters, `permit` receives the resource key and the
      list registered for the model (plural and singular lists together)
      or, with no model, the list under the resource key itself. */
  lemma PermittedStrong(config: Config, reg: Registry<Key>, p: Params, inf: Inflector, cls: ClassName)
    requires config.useStrongParameters && !ModelOf(p).BadModel?
    requires inf.resourceKey(ModelName(ModelOf(p)), cls) in p
    ensures var model := ModelOf(p);
            var rk := inf.resourceKey(ModelName(model), cls);
            var r := PermittedParams(config, reg, p, inf, cls);
            && r.Strong? && r.resourceKey == rk
            && (model.Model? ==> r.allowed == AllowedForModel(reg, model.name, inf))
            && (model.NoModel? ==> (r.allowed.Some? <==> StrKey(rk) in reg)
                                   && (r.allowed.Some? ==> r.allowed.value == reg[StrKey(rk)]))
  {
  }

  /** Fields registered from a Hash are stored under symbols, which a
      request without `model` never looks up: from an empty registry, such
      a request with any resource pair raises instead of whitelisting. */
  lemma HashFieldsNeedModel(config: Config, inf: Inflector, cls: ClassName, pairs: seq<(string, Value)>, p: Params)
    requires AllWellFormed(pairs)
    requires !config.useStrongParameters && ModelOf(p).NoModel?
    requires var rk := inf.resourceKey(None, cls); rk in p && p[rk].Hash? && p[rk].entries != []
    ensures PermittedParams(config, PermitSpec(map[], inf, cls, Hash(pairs)).params, p, inf, cls) == NoAllowedList
  {
    var rk := inf.resourceKey(None, cls);
    HashRegistration(map[], inf, cls, pairs, StrKey(rk));
  }

  /** With the shipped configuration, an allowed String and Integer pass,
      while a disallowed key and a nested set of pairs are dropped. */
  lemma WhitelistExample()
    ensures Whitelist([("name", Str("Ann")), ("age", Int(3)), ("admin", True), ("address", Hash([]))],
                      ["name", "age", "address"], Defaults.approvedParamClasses)
         == [("name", Str("Ann")), ("age", Int(3))]
  {
    var e := [("name", Str("Ann")), ("age", Int(3)), ("admin", True), ("address", Hash([]))];
    var allowed := ["name", "age", "address"];
    var approved := Defaults.approvedParamClasses;
    assert !Keep(e[3], allowed, approved) by {
      assert ClassOf(e[3].1) == HashClass;
    }
    assert !Keep(e[2], allowed, approved) by {
      assert "admin" != "name" && "admin" != "age" && "admin" != "address";
    }
    assert Keep(e[1], allowed, approved) && Keep(e[0], allowed, approved);
    assert e[3..][1..] == [];
    assert Whitelist(e[3..], allowed, approved) == [];
    assert e[2..][1..] == e[3..];
    assert Whitelist(e[2..], allowed, approved) == [];
    assert e[1..][1..] == e[2..];
    assert Whitelist(e[1..], allowed, approved) == [e[1]];
  }

  // ---------------------------------------------------------------------
  // Query helpers

  /** `order_param`: the request's `order_by` as given, or `:id`. */
  function OrderParam(p: Params): (r: Value)
    ensures Truthy(r)
    ensures Param(p, "order_by").Some? ==> r == p["order_by"]
    ensures Param(p, "order_by").None? ==> r == Symbol("id")
  {
    if Param(p, "order_by").Some? then p["order_by"] else Symbol("id")
  }

  // ---------------------------------------------------------------------
  // The response envelope

  /** `render_json(error, info_hash, status)`: the payload alone under
      `restful_api`, otherwise `{error: error}.merge(info_hash)`. */
  function RenderJson(config: Config, error: bool, info: Body, status: Status): (r: Rendered)
    ensures r.status == status
    ensures config.restfulApi ==> r.json == info
    ensures !config.restfulApi ==> |r.json| >= 1 && r.json[0].0 == ErrorKey && Without(r.json, ErrorKey) == Without(info, ErrorKey)
    ensures !config.restfulApi ==> r.json[0].1 == if HasKey(info, ErrorKey) then ValueAt(info, ErrorKey) else FromBool(error)
    ensures !config.restfulApi ==> forall i :: 1 <= i < |r.json| ==> r.json[i].0 != ErrorKey
    ensures !config.restfulApi && !HasKey(info, ErrorKey) ==> r.json == [(ErrorKey, FromBool(error))] + info
  {
    if config.restfulApi then Rendered(info, status)
    else
      MergeWithout(ErrorKey, FromBool(error), info);
      Rendered(Merge(ErrorKey, FromBool(error), info), status)
  }

  /** `render_processed_entity`: 200, and the error flag false unless the
      API is configured RESTful. */
  function RenderProcessedEntity(config: Config, info: Body): (r: Rendered)
    ensures Code(r.status) == 200
    ensures config.restfulApi ==> r.json == info
    ensures !config.restfulApi && !HasKey(info, ErrorKey) ==> r.json == [(ErrorKey, False)] + info
  {
    RenderJson(config, false, info, Ok)
  }

  /** `render_unprocessable_entity`: 422, and the error flag true unless
      the API is configured RESTful. */
  function RenderUnprocessableEntity(config: Config, info: Body): (r: Rendered)
    ensures Code(r.status) == 422
    ensures config.restfulApi ==> r.json == info
    ensures !config.restfulApi && !HasKey(info, ErrorKey) ==> r.json == [(ErrorKey, True)] + info
  {
    RenderJson(config, true, info, UnprocessableEntity)
  }

  // ---------------------------------------------------------------------
  // The search action's precondition

  const SearchMissingMessage: string := "Please select a 'search_field' and a 'search_string'"

  /** What `search` does before touching the query: answer 422 unless both
      `search_field` and `search_string` are given; otherwise build the
      condition, which raises when the search string is not a String. */
  datatype SearchPlan = Rejected(response: Rendered) | Searched(condition: Condition) | SearchTypeError(got: RClass)

  function SearchPlanOf(config: Config, p: Params, inf: Inflector, like: string): (r: SearchPlan)
    ensures r.Rejected? <==> Param(p, "search_field").None? || Param(p, "search_string").None?
    ensures r.Rejected? ==> Code(r.response.status) == 422
    ensures r.Rejected? && !config.restfulApi ==> |r.response.json| >= 1 && r.response.json[0] == (ErrorKey, True)
    ensures r.SearchTypeError? <==> !r.Rejected? && !p["search_string"].Str?
    ensures r.Searched? ==> (r.condition.bind == Wildcarded(p["search_string"].s)
                             && r.condition.fragment == LikeFragment(ToS(inf, p["search_field"]), like))
  {
    if Param(p, "search_field").Some? && Param(p, "search_string").Some? then
      var s := p["search_string"];
      if !s.Str? then SearchTypeError(ClassOf(s))
      else Searched(Like(LikeFragment(ToS(inf, p["search_field"]), like), Wildcarded(s.s)))
    else
      var info := [(SymKey("messages"), Str(SearchMissingMessage))];
      assert !HasKey(info, ErrorKey);
      Rejected(RenderUnprocessableEntity(config, info))
  }
}
