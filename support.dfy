/** The ActiveSupport string inflections and the class-name manipulations
    the controllers rely on. Their rules (irregular plurals, casing) are
    library code outside this model, so they are fields of a record: every
    lemma about the model holds for whatever functions are supplied. */
module Support {
  import opened Ruby

  datatype Inflector = Inflector(
    /** `String#singularize` */
    singularize: string -> string,
    /** `String#pluralize` */
    pluralize: string -> string,
    /** `to_s.tableize.split('_controllers').first` applied to a controller class */
    controllerTable: ClassName -> string,
    /** `resource_key`: the request's `model` parameter if any, otherwise the
        controller class name, run through `tableize`, `singularize` and
        `titleize` */
    resourceKey: (Option<string>, ClassName) -> string,
    /** `to_s` of values other than strings and symbols */
    inspect: Value -> string)

  /** `_controlled_resource_name`: the singular resource a controller class
      serves when the request names none. */
  function ControlledResourceName(inf: Inflector, cls: ClassName): string
  {
    inf.singularize(inf.controllerTable(cls))
  }

  /** String interpolation `"#{v}"`. */
  function ToS(inf: Inflector, v: Value): string
  {
    match v
    case Str(s) => s
    case Symbol(n) => n
    case _ => inf.inspect(v)
  }
}
