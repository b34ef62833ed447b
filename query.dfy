/** The query a controller builds, seen only through the fuzzy-search
    conditions it adds; every other relation method belongs to the ORM. */
module Query {

  /** A condition `query.where(fragment, bind)` adds. */
  datatype Condition = Like(fragment: string, bind: string)

  /** A query, seen only through the conditions added to it. */
  datatype Relation = Relation(model: string, conditions: seq<Condition>)

  /** `"#{field} #{DATABASE_LIKE} ?"`: the fragment matching `field`
      against one bound pattern. */
  function LikeFragment(field: string, like: string): string
  {
    field + " " + like + " ?"
  }

  /** Under one operator, different fields give different fragments. */
  lemma LikeFragmentInjective(f: string, g: string, like: string)
    requires LikeFragment(f, like) == LikeFragment(g, like)
    ensures f == g
  {
    var r := LikeFragment(f, like);
    assert r == f + (" " + like + " ?") == g + (" " + like + " ?");
    assert |f| == |g|;
    assert f == r[..|f|] == g;
  }
}
