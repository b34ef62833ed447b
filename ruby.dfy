/** Ruby runtime values as far as the generic controller inspects them:
    their class (for the whitelist and the registration checks), their
    truthiness (for `a && b` and `x || default`) and the names of
    strings and symbols. */
module Ruby {

  /** A Ruby symbol, represented by its name (`:name` is "name"). */
  type Sym = string

  /** The name of a controller class, the key of the per-class registries. */
  type ClassName = string

  datatype Option<T> = None | Some(value: T)

  /** The classes a value can have. `Object(name)` stands for any other class. */
  datatype RClass =
    | NilClass | TrueClass | FalseClass
    | IntegerClass | FloatClass
    | StringClass | SymbolClass
    | ArrayClass | HashClass
    | Object(name: string)

  /** A Ruby value. Hash keys are strings: request parameters are hashes
      with indifferent access, which store their keys as strings, and the
      registration hashes are only ever read through `key.to_s`. */
  datatype Value =
    | Nil | True | False
    | Int(i: int) | Flt(f: real)
    | Str(s: string) | Symbol(name: string)
    | Arr(items: seq<Value>)
    | Hash(entries: seq<(string, Value)>)
    | Instance(className: string)

  /** `v.class` */
  function ClassOf(v: Value): RClass
  {
    match v
    case Nil => NilClass
    case True => TrueClass
    case False => FalseClass
    case Int(_) => IntegerClass
    case Flt(_) => FloatClass
    case Str(_) => StringClass
    case Symbol(_) => SymbolClass
    case Arr(_) => ArrayClass
    case Hash(_) => HashClass
    case Instance(c) => Object(c)
  }

  /** Everything except `nil` and `false` is true in a condition. */
  predicate Truthy(v: Value)
  {
    !v.Nil? && !v.False?
  }

  function FromBool(b: bool): Value
  {
    if b then True else False
  }

  /** Only strings and symbols answer `to_sym`. */
  predicate HasToSym(v: Value)
  {
    v.Str? || v.Symbol?
  }

  /** `v.to_sym` */
  function ToSym(v: Value): Sym
    requires HasToSym(v)
  {
    if v.Str? then v.s else v.name
  }

  /** A hash key whose kind matters: in Ruby "customer" and :customer are
      different keys of the same hash. */
  datatype Key = StrKey(s: string) | SymKey(name: string)

  /** ActiveSupport's `Array#split(sep)`: the runs of `items` between the
      elements equal to `sep`; an array without `sep` is one run. */
  function ArraySplit(items: seq<Value>, sep: Value): (r: seq<seq<Value>>)
    ensures |r| >= 1
  {
    if items == [] then [[]]
    else
      var rest := ArraySplit(items[1..], sep);
      if items[0] == sep then [[]] + rest
      else [[items[0]] + rest[0]] + rest[1..]
  }

  /** `groups.inject { |a, g| a + [sep] + g }`: the runs put back together. */
  function JoinRuns(groups: seq<seq<Value>>, sep: Value): seq<Value>
    requires |groups| >= 1
  {
    if |groups| == 1 then groups[0] else groups[0] + [sep] + JoinRuns(groups[1..], sep)
  }

  /** `Array#split` makes one run more than there are separators. */
  lemma {:induction false} ArraySplitCount(items: seq<Value>, sep: Value)
    ensures |ArraySplit(items, sep)| == multiset(items)[sep] + 1
  {
    if items != [] {
      ArraySplitCount(items[1..], sep);
      assert items == [items[0]] + items[1..];
      assert multiset(items) == multiset{items[0]} + multiset(items[1..]);
    }
  }

  /** No run of `Array#split` holds the separator. */
  lemma {:induction false} ArraySplitRuns(items: seq<Value>, sep: Value)
    ensures forall g :: g in ArraySplit(items, sep) ==> sep !in g
  {
    if items != [] {
      var rest := ArraySplit(items[1..], sep);
      ArraySplitRuns(items[1..], sep);
      if items[0] != sep {
        var r := [[items[0]] + rest[0]] + rest[1..];
        assert rest[0] in rest;
        forall g | g in r ensures sep !in g {
          if g != r[0] { assert g in rest[1..]; }
        }
      }
    }
  }

  /** Joining the runs of `Array#split` with the separator gives the array back. */
  lemma {:induction false} ArraySplitJoin(items: seq<Value>, sep: Value)
    ensures JoinRuns(ArraySplit(items, sep), sep) == items
  {
    if items != [] {
      var rest := ArraySplit(items[1..], sep);
      ArraySplitJoin(items[1..], sep);
      assert items == [items[0]] + items[1..];
      if items[0] == sep {
        assert ([[]] + rest)[1..] == rest;
      } else {
        var r := [[items[0]] + rest[0]] + rest[1..];
        assert r[1..] == rest[1..];
        if |rest| > 1 {
          assert JoinRuns(rest, sep) == rest[0] + [sep] + JoinRuns(rest[1..], sep);
        }
      }
    }
  }

  /** `[1, ",", 2].split(",")` is `[[1], [2]]`. */
  lemma ArraySplitExample()
    ensures ArraySplit([Int(1), Str(","), Int(2)], Str(",")) == [[Int(1)], [Int(2)]]
  {
    var last: seq<Value> := [Int(2)];
    var none: seq<Value> := [];
    assert last[1..] == none;
    assert ArraySplit(none, Str(",")) == [[]];
    assert last + none == last;
    var runs: seq<seq<Value>> := [none];
    assert runs[1..] == [];
    assert ArraySplit(last, Str(",")) == [[Int(2)]];
    var tail: seq<Value> := [Str(","), Int(2)];
    assert tail[1..] == last;
    assert ArraySplit(tail, Str(",")) == [[], [Int(2)]];
    var items: seq<Value> := [Int(1), Str(","), Int(2)];
    assert items[1..] == tail;
    var split := ArraySplit(tail, Str(","));
    assert [Int(1)] + split[0] == [Int(1)];
    assert split[1..] == [[Int(2)]];
  }
}
