/** The current mixin (`GeneralizedApi::Api`): its process-wide parameter
    registry and per-class filter chains, the rule that decides which
    filters run for an action, and the query-policy helpers (ordering,
    pagination, fuzzy search, envelope, permitted-parameter lookup). */
module Api {
  import opened Ruby
  import opened RubyStrings
  import opened Support
  import opened Settings
  import opened Request
  import opened Response
  import opened Registration
  import opened Dispatch
  import opened Query

  // ---------------------------------------------------------------------
  // Filter rules and their eligibility

  /** An `only:` or `except:` option: one action name or a list of them. */
  datatype Scope = One(action: Sym) | Many(actions: seq<Sym>)

  /** A proc given to `unless:` or `next:`; what it answers when called is
      a parameter of the evaluation. */
  type ProcId = nat

  /** The options of `apply_filter`. A lone proc is a one-element list.
      `ifProcs` is the `if:` option, which nothing reads. */
  datatype FilterOptions = FilterOptions(
    only: Option<Scope>,
    except: Option<Scope>,
    unlessProcs: Option<seq<ProcId>>,
    nextProcs: Option<seq<ProcId>>,
    ifProcs: Option<seq<ProcId>>)

  datatype FilterRule = FilterRule(methodName: Sym, options: FilterOptions)

  /** `scope.to_sym == action` or `scope.map(&:to_sym).include?(action)` */
  predicate Matches(scope: Scope, action: Sym)
  {
    match scope
    case One(a) => a == action
    case Many(names) => action in names
  }

  /** `skip_filter_due_to_except?` */
  predicate SkipDueToExcept(rule: FilterRule, action: Sym)
  {
    rule.options.except.Some? && Matches(rule.options.except.value, action)
  }

  /** `apply_filter_due_to_only?` */
  predicate ApplyDueToOnly(rule: FilterRule, action: Sym)
  {
    rule.options.only.None? || Matches(rule.options.only.value, action)
  }

  /** `procs.nil? || [*procs].all?(&:call)` */
  predicate AllCalled(procs: Option<seq<ProcId>>, call: ProcId -> bool)
  {
    procs.None? || forall p :: p in procs.value ==> call(p)
  }

  /** `skip_filter_due_to_unless?`: despite its name, true means the filter
      may run, which needs every `unless:` proc to answer true. */
  predicate PassesUnless(rule: FilterRule, call: ProcId -> bool)
  {
    AllCalled(rule.options.unlessProcs, call)
  }

  /** `apply_filter_due_to_if?`: it reads the `next:` option. */
  predicate PassesNext(rule: FilterRule, call: ProcId -> bool)
  {
    AllCalled(rule.options.nextProcs, call)
  }

  /** Whether `filters` calls the rule's handler for `action`. */
  predicate Eligible(rule: FilterRule, action: Sym, call: ProcId -> bool)
  {
    !SkipDueToExcept(rule, action) && ApplyDueToOnly(rule, action)
    && PassesUnless(rule, call) && PassesNext(rule, call)
  }

  /** The actions a scope names. */
  function Actions(s: Scope): set<Sym>
  {
    match s
    case One(a) => {a}
    case Many(names) => set a | a in names
  }

  /** Eligibility in terms of sets of actions: `except` must not name the
      action, `only` (when given) must, and every `unless` and `next` proc
      must answer true. */
  lemma EligibleMeaning(rule: FilterRule, action: Sym, call: ProcId -> bool)
    ensures Eligible(rule, action, call) <==>
      && (rule.options.except.None? || action !in Actions(rule.options.except.value))
      && (rule.options.only.None? || action in Actions(rule.options.only.value))
      && (rule.options.unlessProcs.None? || forall p :: p in rule.options.unlessProcs.value ==> call(p))
      && (rule.options.nextProcs.None? || forall p :: p in rule.options.nextProcs.value ==> call(p))
  {
  }

  /** The `if:` option has no effect on eligibility. */
  lemma IfOptionIgnored(rule: FilterRule, action: Sym, call: ProcId -> bool, procs: Option<seq<ProcId>>)
    ensures Eligible(rule.(options := rule.options.(ifProcs := procs)), action, call)
        == Eligible(rule, action, call)
  {
  }

  /** The handlers `filters` calls for `action`, in chain order. */
  function EligibleHandlers(rules: seq<FilterRule>, action: Sym, call: ProcId -> bool): (r: seq<Sym>)
    ensures |r| <= |rules|
    ensures forall i :: 0 <= i < |rules| && Eligible(rules[i], action, call) ==> rules[i].methodName in r
    ensures forall n :: n in r ==>
      exists i :: 0 <= i < |rules| && rules[i].methodName == n && Eligible(rules[i], action, call)
    decreases |rules|
  {
    if rules == [] then []
    else
      var rest := EligibleHandlers(rules[1..], action, call);
      assert forall i :: 1 <= i < |rules| ==> rules[i] == rules[1..][i - 1];
      if Eligible(rules[0], action, call) then [rules[0].methodName] + rest else rest
  }

  /** The handlers of a chain `a + b` are those of `a` followed by those of `b`. */
  lemma {:induction false} EligibleHandlersAppend(a: seq<FilterRule>, b: seq<FilterRule>, action: Sym, call: ProcId -> bool)
    ensures EligibleHandlers(a + b, action, call) == EligibleHandlers(a, action, call) + EligibleHandlers(b, action, call)
    decreases |a|
  {
    if a == [] {
      assert a + b == b;
    } else {
      assert (a + b)[0] == a[0];
      assert (a + b)[1..] == a[1..] + b;
      EligibleHandlersAppend(a[1..], b, action, call);
    }
  }

  // ---------------------------------------------------------------------
  // The class-level registries

  /** What `permit_params` does with a list of fields (an Array, or a lone
      String or Symbol): the list under `k` is created if missing and each
      field appended to it as a symbol, and the list is then de-duplicated;
      the de-duplication is sent to nil, and raises, when the list was
      never created. */
  function PermitList(m: Registry<Sym>, k: Sym, vs: seq<Value>): Registered<Sym>
  {
    var p := AppendEachCreating(m, k, vs);
    if p.stoppedAt.Some? then Registered(p.params, Some(NoToSym(ClassOf(p.stoppedAt.value))))
    else if k !in p.params then Registered(p.params, Some(UniqOnNil))
    else Registered(p.params[k := Dedup(p.params[k])], None)
  }

  /** `permit_params(param)` on the registry `m`. */
  function PermitSpec(m: Registry<Sym>, inf: Inflector, cls: ClassName, param: Value): Registered<Sym>
  {
    match param
    case Hash(pairs) => AppendPairs(m, pairs, inf.singularize)
    case Arr(items) => PermitList(m, ControlledResourceName(inf, cls), items)
    case Str(_) => PermitList(m, ControlledResourceName(inf, cls), [param])
    case Symbol(_) => PermitList(m, ControlledResourceName(inf, cls), [param])
    case _ => Registered(m, Some(Unpermittable(ClassOf(param))))
  }

  /** A list registration succeeds exactly when every field has `to_sym`
      and the list under `k` exists afterwards; it then holds every field
      registered before or now, each once. Other keys are unchanged. */
  lemma PermitListMeaning(m: Registry<Sym>, k: Sym, vs: seq<Value>)
    ensures var r := PermitList(m, k, vs);
      && (r.error.None? <==> AllHaveToSym(vs) && (k in m || vs != []))
      && (AllHaveToSym(vs) && (k in m || vs != []) ==>
            k in r.params && NoDuplicates(r.params[k])
            && forall f :: f in r.params[k] <==> f in Lookup(m, k) || f in SymNames(vs))
      && (forall k' :: k' != k ==> Lookup(r.params, k') == Lookup(m, k') && (k' in r.params <==> k' in m))
  {
    var p := AppendEachCreating(m, k, vs);
    if AllHaveToSym(vs) && (k in m || vs != []) {
      assert p.params[k] == Lookup(m, k) + SymNames(vs);
    }
  }

  /** When the field at `j` is the first without `to_sym`, registration
      raises; the list under `k` exists, holding what it held before and
      the fields before `j`, and is not de-duplicated. */
  lemma PermitListStopsAt(m: Registry<Sym>, k: Sym, vs: seq<Value>, j: nat)
    requires j < |vs| && !HasToSym(vs[j]) && AllHaveToSym(vs[..j])
    ensures var r := PermitList(m, k, vs);
            && r.error == Some(NoToSym(ClassOf(vs[j])))
            && k in r.params && r.params[k] == Lookup(m, k) + SymNames(vs[..j])
  {
    var m' := m[k := Lookup(m, k)];
    AppendEachStopsAt(m', k, vs, j);
    AppendEachMeaning(m', k, vs[..j]);
  }

  /** Thanks to `uniq!`, registering the same fields a second time leaves
      the registry as the first time did. */
  lemma PermitListTwice(m: Registry<Sym>, k: Sym, vs: seq<Value>)
    requires AllHaveToSym(vs) && (k in m || vs != [])
    ensures var r1 := PermitList(m, k, vs);
            PermitList(r1.params, k, vs) == r1
  {
    var d := Dedup(Lookup(m, k) + SymNames(vs));
    PermitListOnce(m, k, vs);
    DedupAppendAgain(Lookup(m, k), SymNames(vs));
    PermitListSettled(m[k := d], k, vs);
  }

  /** Registering fields that are already listed under `k`, in a list that
      already has no duplicates, changes nothing. */
  lemma PermitListSettled(m: Registry<Sym>, k: Sym, vs: seq<Value>)
    requires AllHaveToSym(vs) && k in m
    requires Dedup(m[k] + SymNames(vs)) == m[k]
    ensures PermitList(m, k, vs) == Registered(m, None)
  {
    var listed := Lookup(m, k) + SymNames(vs);
    assert listed == m[k] + SymNames(vs);
    PermitListOnce(m, k, vs);
    assert m[k := Dedup(listed)] == m;
  }

  /** A successful list registration replaces the list under `k` by the
      de-duplicated old and new fields, and changes nothing else. */
  lemma PermitListOnce(m: Registry<Sym>, k: Sym, vs: seq<Value>)
    requires AllHaveToSym(vs) && (k in m || vs != [])
    ensures PermitList(m, k, vs) == Registered(m[k := Dedup(Lookup(m, k) + SymNames(vs))], None)
  {
    var listed := Lookup(m, k) + SymNames(vs);
    if vs == [] {
      assert listed == m[k];
    } else {
      AppendEachCreatingAll(m, k, vs);
      assert m[k := listed][k := Dedup(listed)] == m[k := Dedup(listed)];
    }
  }

  /** The state `GeneralizedApi::Api` keeps in class variables, shared by
      every controller that includes it. */
  class ApiState {
    /** `@@resource_params`: resource key => permitted field symbols */
    var resourceParams: Registry<Sym>
    /** `@@filters`: controller class => its callback lists */
    var filters: map<ClassName, Callbacks<FilterRule>>

    constructor ()
      ensures resourceParams == map[] && filters == map[]
    {
      resourceParams := map[];
      filters := map[];
    }

    /** The filter chain of `cls`, empty when it registered none. */
    function Chain(cls: ClassName): seq<FilterRule>
      reads this
    {
      RecordOf(filters, cls).filter
    }

    /** `permit_params(param)` called on controller class `cls`. */
    method PermitParams(inf: Inflector, cls: ClassName, param: Value) returns (err: Option<RegError>)
      modifies this
      ensures var r := PermitSpec(old(resourceParams), inf, cls, param);
              resourceParams == r.params && err == r.error
      ensures filters == old(filters)
    {
      if param.Hash? {
        err := RegisterPairs(inf, param.entries);
      } else if param.Arr? || param.Str? || param.Symbol? {
        var values := if param.Arr? then param.items else [param];
        err := RegisterList(ControlledResourceName(inf, cls), values);
      } else {
        err := Some(Unpermittable(ClassOf(param)));
      }
    }

    /** The Hash branch: each entry's fields under its singularised key. */
    method RegisterPairs(inf: Inflector, pairs: seq<(string, Value)>) returns (err: Option<RegError>)
      modifies this
      ensures var r := AppendPairs(old(resourceParams), pairs, inf.singularize);
              resourceParams == r.params && err == r.error
      ensures filters == old(filters)
    {
      var i := 0;
      while i < |pairs|
        invariant 0 <= i <= |pairs|
        invariant AppendPairs(old(resourceParams), pairs, inf.singularize)
               == AppendPairs(resourceParams, pairs[i..], inf.singularize)
        invariant filters == old(filters)
      {
        var key, fields := pairs[i].0, pairs[i].1;
        assert pairs[i..][0] == pairs[i] && pairs[i..][1..] == pairs[i + 1..];
        if !fields.Arr? {
          return Some(ArrayExpected(ClassOf(fields)));
        }
        var stopped := AppendFields(inf.singularize(key), fields.items);
        if stopped.Some? {
          return Some(InvalidParameterType(ClassOf(stopped.value), key));
        }
        i := i + 1;
      }
      return None;
    }

    /** `fields.each { |v| list(k) << v.to_sym }`, stopping at the first
        field without `to_sym` and returning it. */
    method AppendFields(k: Sym, fields: seq<Value>) returns (stopped: Option<Value>)
      modifies this
      ensures var r := AppendEach(old(resourceParams), k, fields);
              resourceParams == r.params && stopped == r.stoppedAt
      ensures filters == old(filters)
    {
      var j := 0;
      while j < |fields|
        invariant 0 <= j <= |fields|
        invariant AppendEach(old(resourceParams), k, fields) == AppendEach(resourceParams, k, fields[j..])
        invariant filters == old(filters)
      {
        var v := fields[j];
        assert fields[j..][0] == v && fields[j..][1..] == fields[j + 1..];
        if !HasToSym(v) {
          return Some(v);
        }
        resourceParams := Append(resourceParams, k, ToSym(v));
        j := j + 1;
      }
      return None;
    }

    /** `fields.each { |v| list(k) ||= []; list(k) << v.to_sym }`: like
        `AppendFields`, except that the list is created before each
        conversion. */
    method AppendListFields(k: Sym, fields: seq<Value>) returns (stopped: Option<Value>)
      modifies this
      ensures var r := AppendEachCreating(old(resourceParams), k, fields);
              resourceParams == r.params && stopped == r.stoppedAt
      ensures filters == old(filters)
    {
      var j := 0;
      while j < |fields|
        invariant 0 <= j <= |fields|
        invariant AppendEachCreating(old(resourceParams), k, fields) == AppendEachCreating(resourceParams, k, fields[j..])
        invariant filters == old(filters)
      {
        var v := fields[j];
        assert fields[j..][0] == v && fields[j..][1..] == fields[j + 1..];
        AppendEachCreatingStep(resourceParams, k, fields[j..]);
        resourceParams := resourceParams[k := Lookup(resourceParams, k)];  // `||= []`
        if !HasToSym(v) {
          return Some(v);
        }
        resourceParams := Append(resourceParams, k, ToSym(v));
        j := j + 1;
      }
      return None;
    }

    /** The Array, Symbol and String branch: the fields under `k`, then `uniq!`. */
    method RegisterList(k: Sym, values: seq<Value>) returns (err: Option<RegError>)
      modifies this
      ensures var r := PermitList(old(resourceParams), k, values);
              resourceParams == r.params && err == r.error
      ensures filters == old(filters)
    {
      var stopped := AppendListFields(k, values);
      if stopped.Some? {
        return Some(NoToSym(ClassOf(stopped.value)));
      }
      if k !in resourceParams {
        return Some(UniqOnNil);
      }
      resourceParams := resourceParams[k := Dedup(resourceParams[k])];
      return None;
    }

    /** `apply_filter(method_name, options)` called on class `cls`: one rule
        at the end of its chain, the record created empty on first use. */
    method ApplyFilter(cls: ClassName, methodName: Sym, options: FilterOptions)
      modifies this
      ensures filters == old(filters)[cls := old(RecordOf(filters, cls)).(filter := old(Chain(cls)) + [FilterRule(methodName, options)])]
      ensures Chain(cls) == old(Chain(cls)) + [FilterRule(methodName, options)]
      ensures forall c :: c != cls ==> Chain(c) == old(Chain(c))
      ensures resourceParams == old(resourceParams)
    {
      if cls !in filters {
        filters := filters[cls := NoCallbacks()];
      }
      var rec := filters[cls];
      filters := filters[cls := rec.(filter := rec.filter + [FilterRule(methodName, options)])];
    }

    /** `filters(information)` in a controller of class `cls` serving
        `action`: the value threaded through the handlers of the eligible
        rules, in registration order. */
    method Filters<T>(cls: ClassName, action: Sym, info: T, handlers: map<Sym, T -> T>, call: ProcId -> bool)
      returns (r: Outcome<T>)
      ensures cls !in filters ==> r == Done(info)
      ensures r == Pipe(handlers, EligibleHandlers(Chain(cls), action, call), info)
    {
      if cls !in filters {
        return Done(info);
      }
      var rules := filters[cls].filter;
      var cur := info;
      var i := 0;
      while i < |rules|
        invariant 0 <= i <= |rules|
        invariant Pipe(handlers, EligibleHandlers(rules, action, call), info)
               == Pipe(handlers, EligibleHandlers(rules[i..], action, call), cur)
      {
        var rule := rules[i];
        assert rules[i..][0] == rule && rules[i..][1..] == rules[i + 1..];
        ghost var rest := EligibleHandlers(rules[i + 1..], action, call);
        if !SkipDueToExcept(rule, action) && ApplyDueToOnly(rule, action)
           && PassesUnless(rule, call) && PassesNext(rule, call)
        {
          assert ([rule.methodName] + rest)[0] == rule.methodName;
          assert ([rule.methodName] + rest)[1..] == rest;
          if rule.methodName !in handlers {
            return NoMethod(rule.methodName);
          }
          cur := handlers[rule.methodName](cur);
        }
        i := i + 1;
      }
      return Done(cur);
    }
  }

  /** A chain whose only rule is limited to some actions calls its handler
      exactly for those actions, when no proc option is given. */
  lemma OnlyRuleRunsFor(name: Sym, actions: seq<Sym>, action: Sym, call: ProcId -> bool)
    ensures var rule := FilterRule(name, FilterOptions(Some(Many(actions)), None, None, None, None));
            EligibleHandlers([rule], action, call) == if action in actions then [name] else []
  {
  }

  /** A chain whose only rule excludes some actions calls its handler for
      every other action, when no proc option is given. */
  lemma ExceptRuleRunsFor(name: Sym, actions: seq<Sym>, action: Sym, call: ProcId -> bool)
    ensures var rule := FilterRule(name, FilterOptions(None, Some(Many(actions)), None, None, None));
            EligibleHandlers([rule], action, call) == if action in actions then [] else [name]
  {
  }

  // ---------------------------------------------------------------------
  // Permitted parameters

  /** What `permitted_params` hands to strong parameters: nothing when the
      request has no entry under its resource key; otherwise that key and
      the fields registered under the resolved registry key (None when the
      key was never registered). A model that is neither a String nor
      false raises while the resource key is computed; a `false` model
      counts as absent there, and raises only afterwards, at `&.singularize`. */
  datatype PermitRequest =
    | NotRequested
    | Require(resourceKey: string, registryKey: Sym, allowed: Option<seq<Sym>>)
    | ModelNotString(got: RClass)

  /** The request's `model` is `false`: falsy for `resource_name`, but not
      nil, so the safe navigation `&.` still sends it `singularize`. */
  predicate FalseModel(p: Params)
  {
    "model" in p && p["model"] == False
  }

  /** `permitted_params` up to the strong-parameters call. */
  function PermittedParams(reg: Registry<Sym>, p: Params, inf: Inflector, cls: ClassName): (r: PermitRequest)
    ensures var rk := inf.resourceKey(ModelName(ModelOf(p)), cls);
            r.ModelNotString? <==> ModelOf(p).BadModel? || (FalseModel(p) && rk in p)
    ensures r.ModelNotString? ==> r.got == (if ModelOf(p).BadModel? then ModelOf(p).got else FalseClass)
    ensures r.NotRequested? <==> !ModelOf(p).BadModel? && inf.resourceKey(ModelName(ModelOf(p)), cls) !in p
    ensures r.Require? ==> !FalseModel(p)
    ensures r.Require? ==> r.resourceKey == inf.resourceKey(ModelName(ModelOf(p)), cls) && r.resourceKey in p
    ensures r.Require? ==>
      && r.registryKey == (if ModelOf(p).Model? then inf.singularize(ModelOf(p).name) else ControlledResourceName(inf, cls))
      && (r.allowed.Some? <==> r.registryKey in reg)
      && (r.allowed.Some? ==> r.allowed.value == reg[r.registryKey])
  {
    var model := ModelOf(p);
    if model.BadModel? then ModelNotString(model.got)
    else
      var rk := inf.resourceKey(ModelName(model), cls);
      if rk !in p then NotRequested
      else if FalseModel(p) then ModelNotString(FalseClass)
      else
        var key := if model.Model? then inf.singularize(model.name) else ControlledResourceName(inf, cls);
        Require(rk, key, if key in reg then Some(reg[key]) else None)
  }

  /** A `false` model on a request carrying the resource key raises. */
  lemma FalseModelRaises(reg: Registry<Sym>, p: Params, inf: Inflector, cls: ClassName)
    requires FalseModel(p) && inf.resourceKey(None, cls) in p
    ensures PermittedParams(reg, p, inf, cls) == ModelNotString(FalseClass)
  {
    assert ModelOf(p).NoModel?;
  }

  /** After a successful list registration on `cls`, a request to `cls`
      naming no model is checked against every field registered, each once. */
  lemma ListedFieldsArePermitted(m: Registry<Sym>, inf: Inflector, cls: ClassName, param: Value, p: Params)
    requires param.Arr? || param.Str? || param.Symbol?
    requires PermitSpec(m, inf, cls, param).error.None?
    requires ModelOf(p).NoModel? && !FalseModel(p) && inf.resourceKey(None, cls) in p
    ensures var reg := PermitSpec(m, inf, cls, param).params;
            var r := PermittedParams(reg, p, inf, cls);
            && r.Require? && r.allowed.Some?
            && NoDuplicates(r.allowed.value)
            && (forall f :: f in Lookup(m, ControlledResourceName(inf, cls)) ==> f in r.allowed.value)
            && (param.Arr? ==> forall f :: f in SymNames(param.items) ==> f in r.allowed.value)
            && (!param.Arr? ==> ToSym(param) in r.allowed.value)
  {
    var k := ControlledResourceName(inf, cls);
    var vs := if param.Arr? then param.items else [param];
    assert PermitSpec(m, inf, cls, param) == PermitList(m, k, vs);
    PermitListMeaning(m, k, vs);
    if !param.Arr? {
      assert SymNames(vs) == [ToSym(param)];
    }
  }

  // ---------------------------------------------------------------------
  // Ordering

  /** `d.downcase` is "asc" or "desc". */
  predicate IsDirection(d: string)
  {
    Downcase(d) == "desc" || Downcase(d) == "asc"
  }

  /** One comma-separated token of `order_by`: its first word is the
      column, its second the direction ("desc" when missing); the pair is
      kept, with the direction as written, only when the column is legal
      and the direction is asc or desc in any case. */
  function OrderEntry(token: string, legal: seq<string>): (r: Option<(string, string)>)
    ensures r.Some? ==> r.value.0 in legal && IsWord(r.value.0) && IsWord(r.value.1) && IsDirection(r.value.1)
  {
    var words := Words(token);
    var dir := if |words| >= 2 then words[1] else "desc";
    assert IsWord("desc");
    if |words| >= 1 && words[0] in legal && IsDirection(dir) then Some((words[0], dir)) else None
  }

  /** The ordering `order_params` passes to the query. */
  datatype OrderSpec = ById | Columns(entries: seq<Option<(string, string)>>) | SplitUndefined(got: RClass)

  /** `order_params`: `:id` without `order_by`; for a String, one entry per
      token of `order_by.split(',')`, nil for the tokens rejected; for an
      Array, ActiveSupport's `Array#split(',')` gives one group per run
      between "," elements, and each group's first element is again an
      Array, never a legal column name, so every entry is nil. */
  function OrderParams(p: Params, legal: seq<string>): (r: OrderSpec)
    ensures r.ById? <==> Param(p, "order_by").None?
    ensures r.SplitUndefined? <==> Param(p, "order_by").Some? && !p["order_by"].Str? && !p["order_by"].Arr?
    ensures r.SplitUndefined? ==> r.got == ClassOf(p["order_by"])
    ensures r.Columns? && p["order_by"].Str? ==> |r.entries| == |Split(p["order_by"].s, ',')|
    ensures r.Columns? ==> forall i :: 0 <= i < |r.entries| && r.entries[i].Some? ==>
              r.entries[i].value.0 in legal && IsDirection(r.entries[i].value.1)
    ensures r.Columns? && p["order_by"].Str? ==> forall i :: 0 <= i < |r.entries| ==>
              r.entries[i] == OrderEntry(Split(p["order_by"].s, ',')[i], legal)
    ensures r.Columns? && p["order_by"].Arr? ==>
              && |r.entries| == multiset(p["order_by"].items)[Str(",")] + 1
              && forall i :: 0 <= i < |r.entries| ==> r.entries[i].None?
  {
    match Param(p, "order_by")
    case None => ById
    case Some(v) =>
      if v.Arr? then
        ArraySplitCount(v.items, Str(","));
        var groups := ArraySplit(v.items, Str(","));
        Columns(seq(|groups|, i requires 0 <= i < |groups| => None))
      else if !v.Str? then SplitUndefined(ClassOf(v))
      else
        var tokens := Split(v.s, ',');
        Columns(seq(|tokens|, i requires 0 <= i < |tokens| => OrderEntry(tokens[i], legal)))
  }

  /** A token naming a column and a direction is kept, direction as
      written, exactly when the column is legal and the direction valid. */
  lemma OrderEntryOfWords(col: string, dir: string, legal: seq<string>)
    requires IsWord(col) && IsWord(dir)
    ensures OrderEntry(col + " " + dir, legal)
         == if col in legal && IsDirection(dir) then Some((col, dir)) else None
  {
    WordsUnwords([col, dir]);
    assert Unwords([col, dir]) == col + " " + dir;
  }

  /** A token naming only a column orders by it descending when the column
      is legal, and is rejected otherwise. */
  lemma OrderEntryDefaultsToDesc(col: string, legal: seq<string>)
    requires IsWord(col)
    ensures OrderEntry(col, legal) == if col in legal then Some((col, "desc")) else None
  {
    WordsUnwords([col]);
    assert Downcase("desc") == "desc";
  }

  /** Whitespace in front of a token (as after the comma in "id, name")
      does not change its entry. */
  lemma OrderEntrySkipsSpace(c: char, token: string, legal: seq<string>)
    requires IsSpace(c)
    ensures OrderEntry([c] + token, legal) == OrderEntry(token, legal)
  {
    WordsSkipsSpace(c, token);
  }

  lemma ExampleLeadingSpace()
    ensures OrderEntry(" name", ["name", "id"]) == Some(("name", "desc"))
  {
    assert " name" == [' '] + "name";
    OrderEntrySkipsSpace(' ', "name", ["name", "id"]);
    OrderEntryDefaultsToDesc("name", ["name", "id"]);
  }

  lemma ExampleTokens()
    ensures Split("name desc,bogus_col asc", ',') == ["name desc", "bogus_col asc"]
  {
    var tokens := ["name desc", "bogus_col asc"];
    assert Join(tokens, ',') == "name desc,bogus_col asc";
    FieldsJoin(tokens, ',');
  }

  lemma ExampleKept()
    ensures OrderEntry("name desc", ["name", "id"]) == Some(("name", "desc"))
  {
    assert "name desc" == "name" + " " + "desc";
    assert Downcase("desc") == "desc";
    OrderEntryOfWords("name", "desc", ["name", "id"]);
  }

  lemma ExampleRejected()
    ensures OrderEntry("bogus_col asc", ["name", "id"]) == None
  {
    assert "bogus_col asc" == "bogus_col" + " " + "asc";
    assert "bogus_col" != "name" && "bogus_col" != "id";
    OrderEntryOfWords("bogus_col", "asc", ["name", "id"]);
  }

  /** An `order_by` of two tokens yields one entry for each, in order. */
  lemma OrderParamsTwoTokens(p: Params, legal: seq<string>, t0: string, t1: string)
    requires "order_by" in p && p["order_by"].Str? && Split(p["order_by"].s, ',') == [t0, t1]
    ensures OrderParams(p, legal) == Columns([OrderEntry(t0, legal), OrderEntry(t1, legal)])
  {
    var tokens := Split(p["order_by"].s, ',');
    var entries := seq(|tokens|, i requires 0 <= i < |tokens| => OrderEntry(tokens[i], legal));
    assert entries == [entries[0], entries[1]];
  }

  /** An Array `order_by` such as `["name desc"]` orders by nothing: one
      nil entry for its one group. */
  lemma OrderParamsArrayExample(legal: seq<string>)
    ensures OrderParams(map["order_by" := Arr([Str("name desc")])], legal) == Columns([None])
  {
    var p := map["order_by" := Arr([Str("name desc")])];
    assert multiset([Str("name desc")])[Str(",")] == 0;
    var r := OrderParams(p, legal);
    assert r.Columns? && |r.entries| == 1 && r.entries[0].None?;
    assert r.entries == [None];
  }

  /** `order_by=name desc,bogus_col asc` with legal columns name and id:
      the first token is kept and the second becomes nil. */
  lemma OrderParamsExample()
    ensures OrderParams(map["order_by" := Str("name desc,bogus_col asc")], ["name", "id"])
         == Columns([Some(("name", "desc")), None])
  {
    ExampleTokens();
    OrderParamsTwoTokens(map["order_by" := Str("name desc,bogus_col asc")], ["name", "id"], "name desc", "bogus_col asc");
    ExampleKept();
    ExampleRejected();
  }

  // ---------------------------------------------------------------------
  // Fuzzy search

  /** A search pair is used only for a legal column and a String value. */
  predicate Searchable(pair: (string, Value), legal: seq<string>)
  {
    pair.0 in legal && pair.1.Str?
  }

  function SearchCondition(pair: (string, Value), like: string): Condition
    requires pair.1.Str?
  {
    Like(LikeFragment(pair.0, like), Wildcarded(pair.1.s))
  }

  /** The conditions the search pairs add, in order: one per usable pair,
      none for any other. */
  function FuzzyConditions(pairs: seq<(string, Value)>, legal: seq<string>, like: string): seq<Condition>
    decreases |pairs|
  {
    if pairs == [] then []
    else
      var init := pairs[..|pairs| - 1];
      var last := pairs[|pairs| - 1];
      var r0 := FuzzyConditions(init, legal, like);
      if Searchable(last, legal) then r0 + [SearchCondition(last, like)] else r0
  }

  /** Every usable pair contributes its condition, and every condition
      comes from a usable pair; there are never more conditions than pairs. */
  lemma {:induction false} FuzzyConditionsMeaning(pairs: seq<(string, Value)>, legal: seq<string>, like: string)
    ensures var r := FuzzyConditions(pairs, legal, like);
      && |r| <= |pairs|
      && (forall i :: 0 <= i < |pairs| && Searchable(pairs[i], legal) ==> SearchCondition(pairs[i], like) in r)
      && (forall c :: c in r ==>
            exists i :: 0 <= i < |pairs| && Searchable(pairs[i], legal) && c == SearchCondition(pairs[i], like))
    decreases |pairs|
  {
    if pairs != [] {
      var init := pairs[..|pairs| - 1];
      var n := |pairs| - 1;
      FuzzyConditionsMeaning(init, legal, like);
      var r0 := FuzzyConditions(init, legal, like);
      var r := FuzzyConditions(pairs, legal, like);
      forall i | 0 <= i < |pairs| && Searchable(pairs[i], legal)
        ensures SearchCondition(pairs[i], like) in r
      {
        if i < n { assert pairs[i] == init[i]; }
      }
      forall c | c in r
        ensures exists i :: 0 <= i < |pairs| && Searchable(pairs[i], legal) && c == SearchCondition(pairs[i], like)
      {
        if c in r0 {
          var i :| 0 <= i < |init| && Searchable(init[i], legal) && c == SearchCondition(init[i], like);
          assert pairs[i] == init[i];
        } else {
          assert Searchable(pairs[n], legal) && c == SearchCondition(pairs[n], like);
        }
      }
    }
  }

  /** Search pairs are independent: the conditions of `a + b` are those of
      `a` followed by those of `b`. */
  lemma {:induction false} FuzzyConditionsAppend(a: seq<(string, Value)>, b: seq<(string, Value)>, legal: seq<string>, like: string)
    ensures FuzzyConditions(a + b, legal, like) == FuzzyConditions(a, legal, like) + FuzzyConditions(b, legal, like)
    decreases |b|
  {
    if b == [] {
      assert a + b == a;
    } else {
      var b' := b[..|b| - 1];
      assert (a + b)[..|a + b| - 1] == a + b';
      assert (a + b)[|a + b| - 1] == b[|b| - 1];
      FuzzyConditionsAppend(a, b', legal, like);
    }
  }

  /** An illegal pair is skipped and the pairs around it are still applied. */
  lemma FuzzySkipsIllegal(a: seq<(string, Value)>, x: (string, Value), b: seq<(string, Value)>, legal: seq<string>, like: string)
    requires !Searchable(x, legal)
    ensures FuzzyConditions(a + [x] + b, legal, like) == FuzzyConditions(a, legal, like) + FuzzyConditions(b, legal, like)
  {
    FuzzyConditionsAppend(a + [x], b, legal, like);
    assert (a + [x])[..|a + [x]| - 1] == a;
  }

  /** One more pair adds its condition, when it is usable, after the others. */
  lemma FuzzyConditionsStep(pairs: seq<(string, Value)>, i: nat, legal: seq<string>, like: string)
    requires i < |pairs|
    ensures FuzzyConditions(pairs[..i + 1], legal, like)
         == FuzzyConditions(pairs[..i], legal, like)
            + (if Searchable(pairs[i], legal) then [SearchCondition(pairs[i], like)] else [])
  {
    assert pairs[..i + 1][..i] == pairs[..i];
  }

  /** `do_fuzzy_search?`: a `search` parameter that is a set of key-value pairs. */
  predicate DoFuzzySearch(p: Params)
  {
    Param(p, "search").Some? && p["search"].Hash?
  }

  /** `apply_fuzzy_searches(query)` */
  method ApplyFuzzySearches(query: Relation, p: Params, legal: seq<string>, like: string) returns (r: Relation)
    ensures r.model == query.model
    ensures !DoFuzzySearch(p) ==> r == query
    ensures DoFuzzySearch(p) ==> r.conditions == query.conditions + FuzzyConditions(p["search"].entries, legal, like)
  {
    if !DoFuzzySearch(p) {
      return query;
    }
    r := AddSearchConditions(query, p["search"].entries, legal, like);
  }

  /** The loop of `apply_fuzzy_searches` over the search pairs. */
  method AddSearchConditions(query: Relation, pairs: seq<(string, Value)>, legal: seq<string>, like: string) returns (r: Relation)
    ensures r.model == query.model
    ensures r.conditions == query.conditions + FuzzyConditions(pairs, legal, like)
  {
    r := query;
    var i := 0;
    while i < |pairs|
      invariant 0 <= i <= |pairs|
      invariant r.model == query.model
      invariant r.conditions == query.conditions + FuzzyConditions(pairs[..i], legal, like)
    {
      FuzzyConditionsStep(pairs, i, legal, like);
      if Searchable(pairs[i], legal) {
        ghost var before := r.conditions;
        r := r.(conditions := r.conditions + [SearchCondition(pairs[i], like)]);
        assert r.conditions == before + [SearchCondition(pairs[i], like)];
      }
      i := i + 1;
    }
    assert pairs[..i] == pairs;
  }

  // ---------------------------------------------------------------------
  // The response envelope

  /** `render_json(error, info_hash, status)`: `{error: error}.merge(info_hash)`. */
  function RenderJson(error: bool, info: Body, status: Status): (r: Rendered)
    ensures r.status == status
    ensures |r.json| >= 1 && r.json[0].0 == ErrorKey && Without(r.json, ErrorKey) == Without(info, ErrorKey)
    ensures r.json[0].1 == if HasKey(info, ErrorKey) then ValueAt(info, ErrorKey) else FromBool(error)
    ensures forall i :: 1 <= i < |r.json| ==> r.json[i].0 != ErrorKey
    ensures !HasKey(info, ErrorKey) ==> r.json == [(ErrorKey, FromBool(error))] + info
  {
    MergeWithout(ErrorKey, FromBool(error), info);
    Rendered(Merge(ErrorKey, FromBool(error), info), status)
  }

  /** `render_processed_entity`: 200, the error flag false before the payload. */
  function RenderProcessedEntity(info: Body): (r: Rendered)
    ensures Code(r.status) == 200
    ensures !HasKey(info, ErrorKey) ==> r.json == [(ErrorKey, False)] + info
  {
    RenderJson(false, info, Ok)
  }

  /** `render_unprocessable_entity`: 422, the error flag true before the payload. */
  function RenderUnprocessableEntity(info: Body): (r: Rendered)
    ensures Code(r.status) == 422
    ensures !HasKey(info, ErrorKey) ==> r.json == [(ErrorKey, True)] + info
  {
    RenderJson(true, info, UnprocessableEntity)
  }
}
