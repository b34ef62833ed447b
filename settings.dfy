/** The library-wide constants and the user-adjustable configuration. */
module Settings {
  import opened Ruby

  /** The wildcard wrapped around fuzzy-search values. */
  const DatabaseWildcard: string := "%"

  /** The pattern operator of a fuzzy-search condition: case-insensitive in
      production, case-sensitive otherwise. The environment is a parameter. */
  function DatabaseLike(production: bool): string
  {
    if production then "ILIKE" else "LIKE"
  }

  datatype Config = Config(
    useStrongParameters: bool,
    restfulApi: bool,
    approvedParamClasses: seq<RClass>,
    provideCountIndexHeader: bool)

  /** The configuration as shipped; applications may replace it at boot. */
  const Defaults: Config :=
    Config(false, false, [StringClass, ArrayClass, IntegerClass, FloatClass, TrueClass, FalseClass], false)

  /** `wildcard + value + wildcard` */
  function Wildcarded(v: string): (r: string)
    ensures |r| == |v| + 2
    ensures r[0] == '%' && r[|r| - 1] == '%'
    ensures r[1..|r| - 1] == v
  {
    DatabaseWildcard + v + DatabaseWildcard
  }

  /** Wrapping is injective: two values give the same pattern only if they are equal. */
  lemma WildcardedInjective(v: string, w: string)
    requires Wildcarded(v) == Wildcarded(w)
    ensures v == w
  {
    var r := Wildcarded(v);
    assert v == r[1..|r| - 1] == w;
  }
}
