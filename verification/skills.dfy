/** The skill domain: the record the API returns, the optional-field filter a
    listing is narrowed by, and the shape of a `BASIC_SKILLS` table row. */
module Skills {
  import opened Wrappers
  import opened SqlValues
  import A = Attributes

  /** A `BasicSkill` as returned to callers. `skillGroup` stays null when the
      column is NULL; every other field always holds a concrete value. */
  datatype Skill = Skill(
    id: int,
    name: string,
    baseAttribute: A.AttributeType,
    skillGroup: Option<string>,
    trainedOnly: bool,
    description: string)

  /** `BasicSkillsFilter`: every field optional, null meaning "no constraint". */
  datatype Filter = Filter(
    name: Option<string>,
    baseAttribute: Option<A.AttributeType>,
    skillGroup: Option<string>,
    trainedOnly: Option<bool>,
    description: Option<string>)

  /** A freshly constructed filter: every field null. */
  const EMPTY_FILTER: Filter := Filter(None, None, None, None, None)

  /** The filter's attribute, when present, is a declared member. */
  predicate ValidFilter(l: A.Layout, f: Filter) {
    f.baseAttribute.Some? ==> A.IsMember(l, f.baseAttribute.value)
  }

  /** None of the filter's text fields holds a LIKE wildcard. */
  predicate TextIsLiteral(f: Filter) {
    && (f.name.Some? ==> NoWildcards(f.name.value))
    && (f.skillGroup.Some? ==> NoWildcards(f.skillGroup.value))
    && (f.description.Some? ==> NoWildcards(f.description.value))
  }

  /** One `BASIC_SKILLS` row as stored: each column may be NULL. The two
      integer-coded columns keep the raw value, which SQLite's dynamic typing
      allows to be text as well. */
  datatype Row = Row(
    id: Option<int>,
    name: Option<string>,
    baseAttribute: DbValue,
    skillGroup: Option<string>,
    trainedOnly: DbValue,
    description: Option<string>)
}
