/** The parameter registry shared by both controller versions: a map from
    a resource key to the list of field symbols a request may set. This
    module states what one call of `permit_params` does to that map; the
    classes in `Api` and `Controller` carry it out step by step. */
module Registration {
  import opened Ruby

  type Registry<K> = map<K, seq<Sym>>

  /** `registry[k] || []` */
  function Lookup<K>(m: Registry<K>, k: K): seq<Sym>
  {
    if k in m then m[k] else []
  }

  /** `registry[k] ||= []; registry[k] << f` */
  function Append<K>(m: Registry<K>, k: K, f: Sym): Registry<K>
  {
    m[k := Lookup(m, k) + [f]]
  }

  predicate AllHaveToSym(vs: seq<Value>)
  {
    forall i :: 0 <= i < |vs| ==> HasToSym(vs[i])
  }

  /** `vs.map(&:to_sym)` */
  function SymNames(vs: seq<Value>): (r: seq<Sym>)
    requires AllHaveToSym(vs)
    ensures |r| == |vs|
  {
    if vs == [] then [] else [ToSym(vs[0])] + SymNames(vs[1..])
  }

  /** The `i`th name is the `i`th value's `to_sym`. */
  lemma {:induction false} SymNamesAt(vs: seq<Value>)
    requires AllHaveToSym(vs)
    ensures forall i :: 0 <= i < |vs| ==> SymNames(vs)[i] == ToSym(vs[i])
    decreases |vs|
  {
    if vs != [] {
      assert AllHaveToSym(vs[1..]) by {
        forall i | 0 <= i < |vs[1..]| ensures HasToSym(vs[1..][i]) {
          assert vs[1..][i] == vs[i + 1];
        }
      }
      SymNamesAt(vs[1..]);
      forall i | 1 <= i < |vs| ensures SymNames(vs)[i] == ToSym(vs[i]) {
        assert vs[i] == vs[1..][i - 1];
      }
    }
  }

  /** A registry after some appends, and the value that stopped them if any. */
  datatype Partial<K> = Partial(params: Registry<K>, stoppedAt: Option<Value>)

  /** Appends `v.to_sym` under `k` for each value in order, stopping at the
      first value that has no `to_sym`; what was appended before it stays. */
  function AppendEach<K(!new)>(m: Registry<K>, k: K, vs: seq<Value>): Partial<K>
    decreases |vs|
  {
    if vs == [] then Partial(m, None)
    else if !HasToSym(vs[0]) then Partial(m, Some(vs[0]))
    else AppendEach(Append(m, k, ToSym(vs[0])), k, vs[1..])
  }

  /** Appending stops at the first value without `to_sym` and reports it;
      when none stops it, the list under `k` gains every value as a symbol,
      in order. The list exists afterwards exactly when it did before or the
      first value was appended, and no other key changes. */
  lemma {:induction false} AppendEachMeaning<K(!new)>(m: Registry<K>, k: K, vs: seq<Value>)
    ensures var r := AppendEach(m, k, vs);
      && (r.stoppedAt.None? <==> AllHaveToSym(vs))
      && (r.stoppedAt.Some? ==> r.stoppedAt.value in vs && !HasToSym(r.stoppedAt.value))
      && (AllHaveToSym(vs) ==> Lookup(r.params, k) == Lookup(m, k) + SymNames(vs))
      && (k in r.params <==> k in m || (vs != [] && HasToSym(vs[0])))
      && (forall k' :: k' != k ==> Lookup(r.params, k') == Lookup(m, k') && (k' in r.params <==> k' in m))
    decreases |vs|
  {
    if vs != [] && HasToSym(vs[0]) {
      AppendEachMeaning(Append(m, k, ToSym(vs[0])), k, vs[1..]);
      assert AllHaveToSym(vs) ==> AllHaveToSym(vs[1..]) && SymNames(vs) == [ToSym(vs[0])] + SymNames(vs[1..]);
      assert AllHaveToSym(vs[1..]) ==> AllHaveToSym(vs) by {
        if AllHaveToSym(vs[1..]) {
          forall i | 0 <= i < |vs| ensures HasToSym(vs[i]) {
            if i > 0 { assert vs[i] == vs[1..][i - 1]; }
          }
        }
      }
    }
  }

  /** When the value at `j` is the first without `to_sym`, the values before
      it have been appended and nothing after it has. */
  lemma {:induction false} AppendEachStopsAt<K(!new)>(m: Registry<K>, k: K, vs: seq<Value>, j: nat)
    requires j < |vs| && !HasToSym(vs[j]) && AllHaveToSym(vs[..j])
    ensures AppendEach(m, k, vs) == Partial(AppendEach(m, k, vs[..j]).params, Some(vs[j]))
    decreases j
  {
    if j > 0 {
      assert HasToSym(vs[..j][0]);
      var m' := Append(m, k, ToSym(vs[0]));
      assert vs[1..][..j - 1] == vs[..j][1..];
      var rest := vs[1..][..j - 1];
      assert AllHaveToSym(rest) by {
        forall i | 0 <= i < |rest| ensures HasToSym(rest[i]) {
          assert rest[i] == vs[..j][i + 1];
        }
      }
      AppendEachStopsAt(m', k, vs[1..], j - 1);
    }
  }

  /** `vs.each { |v| reg[k] ||= []; reg[k] << v.to_sym }`: the list under
      `k` is created before each conversion, so a value without `to_sym`
      still leaves the list in place, empty when it was new. */
  function AppendEachCreating<K(!new)>(m: Registry<K>, k: K, vs: seq<Value>): (r: Partial<K>)
    ensures r.stoppedAt.None? <==> AllHaveToSym(vs)
    ensures r.stoppedAt.Some? ==> r.stoppedAt.value in vs && !HasToSym(r.stoppedAt.value)
    ensures AllHaveToSym(vs) ==> Lookup(r.params, k) == Lookup(m, k) + SymNames(vs)
    ensures k in r.params <==> k in m || vs != []
    ensures forall k' :: k' != k ==> Lookup(r.params, k') == Lookup(m, k') && (k' in r.params <==> k' in m)
  {
    if vs == [] then Partial(m, None)
    else
      AppendEachMeaning(m[k := Lookup(m, k)], k, vs);
      AppendEach(m[k := Lookup(m, k)], k, vs)
  }

  /** One step of the creating fold: create the list, then stop at the
      value or append it and go on with the rest. */
  lemma AppendEachCreatingStep<K(!new)>(m: Registry<K>, k: K, vs: seq<Value>)
    requires vs != []
    ensures var m1 := m[k := Lookup(m, k)];
            AppendEachCreating(m, k, vs)
            == (if !HasToSym(vs[0]) then Partial(m1, Some(vs[0]))
                else AppendEachCreating(Append(m1, k, ToSym(vs[0])), k, vs[1..]))
  {
    var m1 := m[k := Lookup(m, k)];
    if HasToSym(vs[0]) {
      var m2 := Append(m1, k, ToSym(vs[0]));
      if vs[1..] == [] {
        assert AppendEach(m2, k, vs[1..]) == Partial(m2, None);
      } else {
        assert m2[k := Lookup(m2, k)] == m2;
      }
    }
  }

  /** When every value has `to_sym` and at least one is given, the creating
      fold is one update of the registry: the list under `k` gains all the
      values in order. */
  lemma AppendEachCreatingAll<K(!new)>(m: Registry<K>, k: K, vs: seq<Value>)
    requires AllHaveToSym(vs) && vs != []
    ensures AppendEachCreating(m, k, vs) == Partial(m[k := Lookup(m, k) + SymNames(vs)], None)
  {
    var r := AppendEachCreating(m, k, vs).params;
    var e := m[k := Lookup(m, k) + SymNames(vs)];
    assert forall k' :: k' in r <==> k' in e;
    forall k' | k' in r ensures r[k'] == e[k'] {
      assert Lookup(r, k') == r[k'];
    }
  }

  /** Why a call of `permit_params` raised. */
  datatype RegError =
    | ArrayExpected(got: RClass)                  // a hash entry whose fields are not an Array
    | InvalidParameterType(got: RClass, model: string) // a hash field that is neither String nor Symbol
    | NoToSym(got: RClass)                        // a listed field without `to_sym`
    | UniqOnNil                                   // `uniq!` sent to a list that was never created
    | Unpermittable(got: RClass)                  // an argument of any other class

  /** The registry after a call, and the error it raised if any. */
  datatype Registered<K> = Registered(params: Registry<K>, error: Option<RegError>)

  predicate WellFormedPair(p: (string, Value))
  {
    p.1.Arr? && AllHaveToSym(p.1.items)
  }

  /** Every entry is an Array whose fields all have `to_sym`. */
  predicate AllWellFormed(pairs: seq<(string, Value)>)
    decreases |pairs|
  {
    pairs == [] || (WellFormedPair(pairs[0]) && AllWellFormed(pairs[1..]))
  }

  /** The Hash branch of `permit_params`: for each entry in order, its
      fields are appended as symbols under `keyOf(key)`. A non-Array entry
      or a field that is neither String nor Symbol raises, keeping every
      append made before it. */
  function AppendPairs<K(!new)>(m: Registry<K>, pairs: seq<(string, Value)>, keyOf: string -> K): (r: Registered<K>)
    ensures r.error.None? <==> AllWellFormed(pairs)
    decreases |pairs|
  {
    if pairs == [] then Registered(m, None)
    else
      var key, fields := pairs[0].0, pairs[0].1;
      if !fields.Arr? then Registered(m, Some(ArrayExpected(ClassOf(fields))))
      else
        AppendEachMeaning(m, keyOf(key), fields.items);
        var p := AppendEach(m, keyOf(key), fields.items);
        if p.stoppedAt.Some? then
          Registered(p.params, Some(InvalidParameterType(ClassOf(p.stoppedAt.value), key)))
        else
          AppendPairs(p.params, pairs[1..], keyOf)
  }

  /** The fields that well-formed entries contribute under `k`, in order. */
  ghost function Collected<K>(pairs: seq<(string, Value)>, keyOf: string -> K, k: K): seq<Sym>
    requires AllWellFormed(pairs)
  {
    if pairs == [] then []
    else
      (if keyOf(pairs[0].0) == k then SymNames(pairs[0].1.items) else [])
        + Collected(pairs[1..], keyOf, k)
  }

  /** The first entry of a well-formed registration: its fields go under
      its key, and the rest of the entries continue from there. */
  lemma AppendPairsHead<K(!new)>(m: Registry<K>, pairs: seq<(string, Value)>, keyOf: string -> K, k: K)
      returns (m': Registry<K>, c0: seq<Sym>)
    requires AllWellFormed(pairs) && pairs != []
    ensures AllWellFormed(pairs[1..])
    ensures AppendPairs(m, pairs, keyOf) == AppendPairs(m', pairs[1..], keyOf)
    ensures Lookup(m', k) == Lookup(m, k) + c0
    ensures k in m' <==> k in m || c0 != []
    ensures Collected(pairs, keyOf, k) == c0 + Collected(pairs[1..], keyOf, k)
  {
    var items := pairs[0].1.items;
    assert items != [] ==> HasToSym(items[0]);
    AppendEachMeaning(m, keyOf(pairs[0].0), items);
    m' := AppendEach(m, keyOf(pairs[0].0), items).params;
    c0 := if keyOf(pairs[0].0) == k then SymNames(items) else [];
  }

  /** A successful Hash registration appends, under every key, exactly the
      fields of the entries that map to it, in entry order and without
      removing duplicates. */
  lemma {:induction false} AppendPairsLookup<K(!new)>(m: Registry<K>, pairs: seq<(string, Value)>, keyOf: string -> K, k: K)
    requires AllWellFormed(pairs)
    ensures Lookup(AppendPairs(m, pairs, keyOf).params, k) == Lookup(m, k) + Collected(pairs, keyOf, k)
    decreases |pairs|
  {
    if pairs != [] {
      var m', c0 := AppendPairsHead(m, pairs, keyOf, k);
      AppendPairsLookup(m', pairs[1..], keyOf, k);
    } else {
      assert Lookup(m, k) + [] == Lookup(m, k);
    }
  }

  /** After a successful Hash registration a key is present exactly when
      it was before or gained a field. */
  lemma {:induction false} AppendPairsHas<K(!new)>(m: Registry<K>, pairs: seq<(string, Value)>, keyOf: string -> K, k: K)
    requires AllWellFormed(pairs)
    ensures k in AppendPairs(m, pairs, keyOf).params <==> k in m || Collected(pairs, keyOf, k) != []
    decreases |pairs|
  {
    if pairs != [] {
      var m', c0 := AppendPairsHead(m, pairs, keyOf, k);
      AppendPairsHas(m', pairs[1..], keyOf, k);
    }
  }

  /** Only the entries' own keys can appear in the registry. */
  lemma {:induction false} CollectedFromEntry<K>(pairs: seq<(string, Value)>, keyOf: string -> K, k: K)
    requires AllWellFormed(pairs)
    requires Collected(pairs, keyOf, k) != []
    ensures exists i :: 0 <= i < |pairs| && keyOf(pairs[i].0) == k
    decreases |pairs|
  {
    if keyOf(pairs[0].0) != k {
      CollectedFromEntry(pairs[1..], keyOf, k);
      var i :| 0 <= i < |pairs[1..]| && keyOf(pairs[1..][i].0) == k;
      assert pairs[i + 1] == pairs[1..][i];
    }
  }

  /** Registering `a + b` is registering `a` and then, unless that raised,
      `b` on the result: a failing entry keeps everything registered before it. */
  lemma {:induction false} AppendPairsConcat<K(!new)>(m: Registry<K>, a: seq<(string, Value)>, b: seq<(string, Value)>, keyOf: string -> K)
    ensures AppendPairs(m, a + b, keyOf)
         == (var ra := AppendPairs(m, a, keyOf);
             if ra.error.Some? then ra else AppendPairs(ra.params, b, keyOf))
    decreases |a|
  {
    if a == [] {
      assert a + b == b;
    } else {
      assert (a + b)[0] == a[0];
      assert (a + b)[1..] == a[1..] + b;
      var fields := a[0].1;
      if fields.Arr? {
        var p := AppendEach(m, keyOf(a[0].0), fields.items);
        if p.stoppedAt.None? {
          AppendPairsConcat(p.params, a[1..], b, keyOf);
        }
      }
    }
  }

  ghost predicate NoDuplicates<T>(s: seq<T>)
  {
    forall i, j :: 0 <= i < j < |s| ==> s[i] != s[j]
  }

  /** `uniq`: the first occurrence of every element, in order. */
  function Dedup<T(==,!new)>(s: seq<T>): (r: seq<T>)
    ensures NoDuplicates(r)
    ensures forall x :: x in r <==> x in s
    ensures |r| <= |s|
  {
    if s == [] then []
    else
      var init := Dedup(s[..|s| - 1]);
      var x := s[|s| - 1];
      assert s == s[..|s| - 1] + [x];
      if x in init then init else init + [x]
  }

  /** A list without duplicates is left as it is, so `uniq` is idempotent. */
  lemma {:induction false} DedupKeepsDistinct<T(!new)>(s: seq<T>)
    requires NoDuplicates(s)
    ensures Dedup(s) == s
    decreases |s|
  {
    if s != [] {
      var init := s[..|s| - 1];
      assert NoDuplicates(init);
      DedupKeepsDistinct(init);
      assert s == init + [s[|s| - 1]];
    }
  }

  /** Removing duplicates never reorders: the result on a prefix is a
      prefix of the result on the whole list. */
  lemma {:induction false} DedupPrefix<T(!new)>(s: seq<T>, n: nat)
    requires n <= |s|
    ensures var d := Dedup(s[..n]); d <= Dedup(s)
    decreases |s|
  {
    if n < |s| {
      assert s[..|s| - 1][..n] == s[..n];
      DedupPrefix(s[..|s| - 1], n);
    } else {
      assert s[..n] == s;
    }
  }

  /** Appending elements that are already present, to a list without
      duplicates, and removing duplicates gives the list back. */
  lemma {:induction false} DedupAbsorbs<T(!new)>(d: seq<T>, s: seq<T>)
    requires NoDuplicates(d)
    requires forall i :: 0 <= i < |s| ==> s[i] in d
    ensures Dedup(d + s) == d
    decreases |s|
  {
    if s == [] {
      assert d + s == d;
      DedupKeepsDistinct(d);
    } else {
      var s' := s[..|s| - 1];
      assert (d + s)[..|d + s| - 1] == d + s';
      assert (d + s)[|d + s| - 1] == s[|s| - 1];
      DedupAbsorbs(d, s');
    }
  }

  /** Appending part of a list again and removing duplicates gives the
      same result as the first time. */
  lemma DedupAppendAgain<T(!new)>(s: seq<T>, t: seq<T>)
    ensures Dedup(Dedup(s + t) + t) == Dedup(s + t)
  {
    var d := Dedup(s + t);
    forall i | 0 <= i < |t| ensures t[i] in d {
      assert t[i] == (s + t)[|s| + i];
    }
    DedupAbsorbs(d, t);
  }
}
