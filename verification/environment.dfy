/** The environment record stored in the `environments` array. */
module Environment {

  /** The `group` property: the key may be missing altogether, hold
      `null`, or hold a string (possibly empty). */
  datatype GroupField = NoGroupKey | NullGroup | Group(groupName: string)

  /** A registry entry `{name, url, group, type}`. A missing `name`, `url`
      or `type` is the empty string: the source only ever tests them for
      truthiness or compares them with non-empty strings. */
  datatype Env = Env(name: string, url: string, group: GroupField, envType: string)

  /** `Boolean(env.group)`. */
  predicate GroupTruthy(g: GroupField)
  {
    g.Group? && g.groupName != ""
  }
}
