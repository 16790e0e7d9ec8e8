/** The Eloquent data store, seen only through the four operations the
    relation rules use. Each is an uninterpreted function supplied by the
    caller, so every property proved holds whatever the database holds. */
module Eloquent {
  import opened Outcomes

  /** A handle on a model instance or on a relation query built from one. */
  datatype Builder = Builder(handle: nat)

  datatype Store = Store(
    // (new $model)->where($column, $value)->first()
    lookup: (string, string, string) -> Option<Builder>,
    // (new $model)->whereIn($column, $values)->get()
    lookupMany: (string, string, seq<string>) -> seq<Builder>,
    // $builder->$relation()
    step: (Builder, string) -> Builder,
    // $builder->count()
    count: Builder -> nat)
}
