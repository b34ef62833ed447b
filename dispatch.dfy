/** Calling controller methods by name (`send`) and the per-class record
    of callback lists that both controller versions keep. */
module Dispatch {
  import opened Ruby

  /** The result of threading a value through handlers called by name: the
      final value, or the name that no method answers to (`NoMethodError`). */
  datatype Outcome<T> = Done(value: T) | NoMethod(name: Sym)

  /** `names.each { |n| x = send(n, x) }`: each handler's result is the next
      one's input. `handlers` maps each method the controller defines to
      what it does with its argument. */
  function Pipe<T>(handlers: map<Sym, T -> T>, names: seq<Sym>, x: T): (r: Outcome<T>)
    ensures r.Done? <==> forall i :: 0 <= i < |names| ==> names[i] in handlers
    ensures r.NoMethod? ==> r.name in names && r.name !in handlers
    ensures names == [] ==> r == Done(x)
    decreases |names|
  {
    if names == [] then Done(x)
    else if names[0] !in handlers then NoMethod(names[0])
    else
      var r := Pipe(handlers, names[1..], handlers[names[0]](x));
      assert (forall i :: 0 <= i < |names[1..]| ==> names[1..][i] in handlers)
          ==> (forall i :: 0 <= i < |names| ==> names[i] in handlers) by {
        if forall i :: 0 <= i < |names[1..]| ==> names[1..][i] in handlers {
          forall i | 0 <= i < |names| ensures names[i] in handlers {
            if i > 0 { assert names[i] == names[1..][i - 1]; }
          }
        }
      }
      r
  }

  /** One defined handler receives the value and its result is the outcome. */
  lemma PipeOne<T>(handlers: map<Sym, T -> T>, n: Sym, x: T)
    requires n in handlers
    ensures Pipe(handlers, [n], x) == Done(handlers[n](x))
  {
    assert [n][1..] == [];
  }

  /** Each handler's result is the next one's input: a chain starting with
      a defined handler runs the rest on that handler's result. */
  lemma PipeCons<T>(handlers: map<Sym, T -> T>, n: Sym, rest: seq<Sym>, x: T)
    requires n in handlers
    ensures Pipe(handlers, [n] + rest, x) == Pipe(handlers, rest, handlers[n](x))
  {
    assert ([n] + rest)[1..] == rest;
  }

  /** A failing chain reports the first name no handler answers to. */
  lemma {:induction false} PipeStopsAtFirstMissing<T>(handlers: map<Sym, T -> T>, names: seq<Sym>, x: T)
    ensures var r := Pipe(handlers, names, x);
            r.NoMethod? ==> exists j :: 0 <= j < |names| && names[j] == r.name
                                        && names[j] !in handlers
                                        && forall i :: 0 <= i < j ==> names[i] in handlers
    decreases |names|
  {
    var r := Pipe(handlers, names, x);
    if names != [] && names[0] in handlers && r.NoMethod? {
      PipeStopsAtFirstMissing(handlers, names[1..], handlers[names[0]](x));
      var j :| 0 <= j < |names[1..]| && names[1..][j] == r.name && names[1..][j] !in handlers
               && forall i :: 0 <= i < j ==> names[1..][i] in handlers;
      assert names[j + 1] == r.name;
      forall i | 0 <= i < j + 1 ensures names[i] in handlers {
        if i > 0 { assert names[i] == names[1..][i - 1]; }
      }
    } else if names != [] && names[0] !in handlers {
      assert names[0] == r.name;
    }
  }

  /** Continues a pipeline with more handlers unless it already failed. */
  function Then<T>(o: Outcome<T>, handlers: map<Sym, T -> T>, names: seq<Sym>): Outcome<T>
  {
    match o
    case Done(x) => Pipe(handlers, names, x)
    case NoMethod(_) => o
  }

  /** Running a chain `a + b` is running `a` and feeding its result to `b`. */
  lemma {:induction false} PipeAppend<T>(handlers: map<Sym, T -> T>, a: seq<Sym>, b: seq<Sym>, x: T)
    ensures Pipe(handlers, a + b, x) == Then(Pipe(handlers, a, x), handlers, b)
    decreases |a|
  {
    if a == [] {
      assert a + b == b;
    } else {
      assert (a + b)[0] == a[0];
      assert (a + b)[1..] == a[1..] + b;
      if a[0] in handlers {
        PipeAppend(handlers, a[1..], b, handlers[a[0]](x));
      }
    }
  }

  /** `{before: [], after: [], filter: []}`, kept per controller class. */
  datatype Callbacks<R> = Callbacks(before: seq<R>, after: seq<R>, filter: seq<R>)

  /** The record `||=` creates on a class's first registration. */
  function NoCallbacks<R>(): Callbacks<R>
  {
    Callbacks([], [], [])
  }

  /** The record of `cls`, or the empty one when `cls` registered nothing. */
  function RecordOf<R>(m: map<ClassName, Callbacks<R>>, cls: ClassName): Callbacks<R>
  {
    if cls in m then m[cls] else NoCallbacks()
  }
}
