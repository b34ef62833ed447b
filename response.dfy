/** The JSON envelope both controllers render. */
module Response {
  import opened Ruby

  datatype Status = Ok | UnprocessableEntity

  /** The HTTP code of `:ok` and `:unprocessable_entity`. */
  function Code(s: Status): int
  {
    match s
    case Ok => 200
    case UnprocessableEntity => 422
  }

  /** A rendered JSON object: its entries in order, keys as Ruby keeps them. */
  type Body = seq<(Key, Value)>

  datatype Rendered = Rendered(json: Body, status: Status)

  /** The `:error` key of the envelope. */
  const ErrorKey: Key := SymKey("error")

  predicate HasKey(b: Body, k: Key)
  {
    exists i :: 0 <= i < |b| && b[i].0 == k
  }

  /** The value under `k`; hashes keep one entry per key, so the first is the one. */
  function ValueAt(b: Body, k: Key): Value
    requires HasKey(b, k)
  {
    if b[0].0 == k then b[0].1 else ValueAt(b[1..], k)
  }

  /** The entries whose key is not `k`, in order. */
  function Without(b: Body, k: Key): (r: Body)
    ensures forall i :: 0 <= i < |r| ==> r[i].0 != k
    ensures !HasKey(b, k) ==> r == b
  {
    if b == [] then []
    else if b[0].0 == k then Without(b[1..], k)
    else
      assert !HasKey(b, k) ==> !HasKey(b[1..], k) by {
        if HasKey(b[1..], k) {
          var i :| 0 <= i < |b[1..]| && b[1..][i].0 == k;
          assert b[i + 1].0 == k;
        }
      }
      [b[0]] + Without(b[1..], k)
  }

  /** Removing a key works entry by entry: on `a + b` it is the removal on
      `a` followed by the removal on `b`. */
  lemma {:induction false} WithoutAppend(a: Body, b: Body, k: Key)
    ensures Without(a + b, k) == Without(a, k) + Without(b, k)
    decreases |a|
  {
    if a == [] {
      assert a + b == b;
    } else {
      assert (a + b)[0] == a[0];
      assert (a + b)[1..] == a[1..] + b;
      WithoutAppend(a[1..], b, k);
    }
  }

  /** One more entry is dropped when its key is `k` and kept, last,
      otherwise; with `Without([], k) == []` this determines `Without`. */
  lemma WithoutSnoc(a: Body, e: (Key, Value), k: Key)
    ensures Without(a + [e], k) == Without(a, k) + (if e.0 == k then [] else [e])
  {
    WithoutAppend(a, [e], k);
    assert [e][1..] == [];
  }

  /** `{k => v}.merge(info)`: `k` stays first, with the value `info` gives
      it if any, followed by the other entries of `info` in order. */
  function Merge(k: Key, v: Value, info: Body): (r: Body)
    ensures |r| >= 1 && r[0].0 == k
    ensures r[0].1 == if HasKey(info, k) then ValueAt(info, k) else v
    ensures forall i :: 1 <= i < |r| ==> r[i].0 != k
    ensures !HasKey(info, k) ==> r == [(k, v)] + info
  {
    [(k, if HasKey(info, k) then ValueAt(info, k) else v)] + Without(info, k)
  }

  /** The envelope adds one entry and hides none: removing its key from
      `{k => v}.merge(info)` leaves the other entries of `info`, in order. */
  lemma MergeWithout(k: Key, v: Value, info: Body)
    ensures Without(Merge(k, v, info), k) == Without(info, k)
  {
    var w := Without(info, k);
    assert !HasKey(w, k);
    var m := Merge(k, v, info);
    assert m[1..] == w;
  }
}
