/** The message replacers of the relation rules: the `:values` placeholder
    of the failure message becomes the display names of the relations. */
module Replacers {
  import Text
  import RelationRules

  /** getAttributeList: each parameter replaced by its display name. How a
      name is displayed (custom attribute names, translations) belongs to
      the host framework and is supplied as `display`. */
  function AttributeList(parameters: seq<string>, display: string -> string): (names: seq<string>)
    ensures |names| == |parameters|
    ensures forall i :: 0 <= i < |parameters| ==> names[i] == display(parameters[i])
  {
    seq(|parameters|, i requires 0 <= i < |parameters| => display(parameters[i]))
  }

  /** The display names of the relation parameters, without the model reference. */
  function RelationDisplayNames(parameters: seq<string>, display: string -> string): (names: seq<string>)
    ensures |names| == if parameters == [] then 0 else |parameters| - 1
    ensures forall i :: 0 <= i < |names| ==> names[i] == display(parameters[i + 1])
  {
    RelationRules.GetRelations(AttributeList(parameters, display))
  }

  /** replaceRelationExists and replaceRelationNotExists, which are the same:
      every `:values` in the message becomes the relation names joined by
      " / "; a message without the placeholder comes back unchanged. */
  function ReplaceRelationValues(message: string, attribute: string, rule: string,
                                 parameters: seq<string>, display: string -> string): (replaced: string)
    ensures !Text.Occurs(message, ":values") ==> replaced == message
    ensures replaced == Text.Join(Text.Explode(message, ":values"), Text.Join(RelationDisplayNames(parameters, display), " / "))
  {
    var values := Text.Join(RelationDisplayNames(parameters, display), " / ");
    Text.ReplaceAllIsJoinExplode(message, ":values", values);
    Text.ReplaceAll(message, ":values", values)
  }
}
