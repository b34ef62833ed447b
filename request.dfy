/** Request parameters as both controllers read them. */
module Request {
  import opened Ruby

  /** Request parameters with indifferent access: `params[:page]` and
      `params['page']` are the same entry, stored under a string key. */
  type Params = map<string, Value>

  /** `params[name]` used as a condition: None when the entry is absent,
      nil or false. */
  function Param(p: Params, name: string): (r: Option<Value>)
    ensures r.Some? <==> name in p && Truthy(p[name])
    ensures r.Some? ==> r.value == p[name]
  {
    if name in p && Truthy(p[name]) then Some(p[name]) else None
  }

  datatype Pagination = Pagination(page: Value, perPage: Value)

  const DefaultPagination: Pagination := Pagination(Int(1), Int(1000))

  /** `_pagination_params` / `pagination_params`: the request's page and
      page size when both are given, page 1 of 1000 otherwise. */
  function PaginationParams(p: Params): (r: Pagination)
    ensures Param(p, "page").Some? && Param(p, "per_page").Some? ==> r == Pagination(p["page"], p["per_page"])
    ensures Param(p, "page").None? || Param(p, "per_page").None? ==> r == DefaultPagination
    ensures Truthy(r.page) && Truthy(r.perPage)
  {
    if Param(p, "page").Some? && Param(p, "per_page").Some? then
      Pagination(p["page"], p["per_page"])
    else
      DefaultPagination
  }

  /** Feeding a resolved pagination back as the request's parameters
      resolves to the same pagination. */
  lemma PaginationIdempotent(p: Params)
    ensures var r := PaginationParams(p);
            PaginationParams(p["page" := r.page]["per_page" := r.perPage]) == r
  {
  }

  /** The request's `model` parameter. */
  datatype ModelParam = NoModel | Model(name: string) | BadModel(got: RClass)

  function ModelOf(p: Params): ModelParam
  {
    match Param(p, "model")
    case None => NoModel
    case Some(v) => if v.Str? then Model(v.s) else BadModel(ClassOf(v))
  }

  function ModelName(m: ModelParam): Option<string>
  {
    if m.Model? then Some(m.name) else None
  }
}
