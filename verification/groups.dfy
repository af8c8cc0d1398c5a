/** Group normalisation and the "same group" test of the popup
    (popup/js/popup.js, `normalizeGroup` and `areInSameGroup`). */
module Groups {
  import opened Common
  import opened JsString
  import opened Environment

  /** `normalizeGroup`: a missing, null, empty or blank group is `null`;
      any other group is lower-cased and trimmed. */
  function NormalizeGroup(g: GroupField): (r: Option<string>)
    ensures r.None? <==> !g.Group? || Trim(g.groupName) == ""
    ensures r.Some? ==> r.value == Lower(Trim(g.groupName))
    ensures r.Some? ==> r.value != "" && Trim(r.value) == r.value && Lower(r.value) == r.value
  {
    if !GroupTruthy(g) || Trim(g.groupName) == "" then None
    else
      var r := Trim(Lower(g.groupName));
      assert r == Lower(Trim(g.groupName)) by { TrimLowerCommute(g.groupName); }
      assert Trim(r) == r by { TrimIdempotent(Lower(g.groupName)); }
      assert Lower(r) == r by { LowerIdempotent(Trim(g.groupName)); }
      Some(r)
  }

  /** Normalising an already normalised group changes nothing. */
  lemma NormalizeIdempotent(g: GroupField)
    requires NormalizeGroup(g).Some?
    ensures NormalizeGroup(Group(NormalizeGroup(g).value)) == NormalizeGroup(g)
  {
  }

  /** `areInSameGroup`, branch by branch: a missing entry is never in a
      group with anything; two entries without a `group` key are; otherwise
      the normalised groups decide, two ungrouped entries being together and
      a grouped and an ungrouped entry apart. */
  function SameGroup(a: Option<Env>, b: Option<Env>): (r: bool)
    ensures a.None? || b.None? ==> !r
  {
    if a.None? || b.None? then false
    else if a.value.group.NoGroupKey? && b.value.group.NoGroupKey? then true
    else NormalizedAgree(NormalizeGroup(a.value.group), NormalizeGroup(b.value.group))
  }

  /** The comparison of two normalised groups in `areInSameGroup`. */
  function NormalizedAgree(g1: Option<string>, g2: Option<string>): (r: bool)
    ensures r <==> g1 == g2
  {
    if g1.None? && g2.None? then true
    else if g1.None? || g2.None? then false
    else g1.value == g2.value
  }

  /** The whole test is equality of normalised groups: the special case
      for two entries without a `group` key is subsumed. */
  lemma SameGroupReference(a: Env, b: Env)
    ensures SameGroup(Some(a), Some(b)) <==> NormalizeGroup(a.group) == NormalizeGroup(b.group)
  {
    if a.group.NoGroupKey? && b.group.NoGroupKey? {
      assert NormalizeGroup(a.group).None? && NormalizeGroup(b.group).None?;
    }
  }

  /** Being in the same group is an equivalence on present entries. */
  lemma SameGroupEquivalence(a: Env, b: Env, c: Env)
    ensures SameGroup(Some(a), Some(a))
    ensures SameGroup(Some(a), Some(b)) == SameGroup(Some(b), Some(a))
    ensures SameGroup(Some(a), Some(b)) && SameGroup(Some(b), Some(c)) ==> SameGroup(Some(a), Some(c))
  {
    SameGroupReference(a, a);
    SameGroupReference(a, b);
    SameGroupReference(b, a);
    SameGroupReference(b, c);
    SameGroupReference(a, c);
  }

  /** Group names that differ only in letter case and surrounding spaces
      name the same group. */
  lemma SameGroupIgnoresCaseAndSpace(a: Env, b: Env, x: string, y: string)
    requires a.group == Group(x) && b.group == Group(y)
    requires Lower(Trim(x)) == Lower(Trim(y))
    ensures SameGroup(Some(a), Some(b))
  {
    SameGroupReference(a, b);
  }

  /** A grouped entry and an ungrouped one (no key, `null`, empty or blank
      group) are never in the same group. */
  lemma GroupedNeverWithUngrouped(a: Env, b: Env)
    requires NormalizeGroup(a.group).Some? && NormalizeGroup(b.group).None?
    ensures !SameGroup(Some(a), Some(b)) && !SameGroup(Some(b), Some(a))
  {
    SameGroupReference(a, b);
    SameGroupReference(b, a);
  }
}
