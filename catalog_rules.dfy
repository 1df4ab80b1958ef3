/** The request-body rules `BrewMethodsService` and `EquipmentService` share:
    both bodies carry a name and a description, and both services check them
    the same way. */
module CatalogRules {
  import opened Common
  import opened JavaText

  /** A `BrewMethodsDTO`/`EquipmentDTO`, or the entity posted to `add`. */
  datatype NamedBody = NamedBody(name: Option<string>, description: Option<string>)

  /** `add` needs a name that is present and not blank; the description is not checked. */
  predicate AcceptableNew(b: NamedBody)
  {
    b.name.Some? && !IsBlank(b.name.value)
  }

  /** `update` needs at least one field, and every field provided must not be blank. */
  predicate AcceptablePatch(b: NamedBody)
  {
    && (b.name.Some? || b.description.Some?)
    && (b.name.Some? ==> !IsBlank(b.name.value))
    && (b.description.Some? ==> !IsBlank(b.description.value))
  }
}
