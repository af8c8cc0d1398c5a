/** The environment registry as the management page edits it
    (popup/js/manage.js): adding and editing through the form, deleting an
    entry, removing a group from every entry, listing the distinct groups,
    and bucketing the list by group for display. */
module Registry {
  import opened Common
  import opened JsString
  import opened Environment
  import opened Url
  import opened EnvType
  import opened Groups

  // ---------------------------------------------------------------------
  // Distinct groups
  // ---------------------------------------------------------------------

  /** `environments.map(env => env.group).filter(Boolean)`: the non-empty
      group names, in list order, repetitions included. */
  function GroupNames(envs: seq<Env>): (r: seq<string>)
    ensures |r| <= |envs|
    ensures forall g :: g in r <==> g != "" && exists i :: 0 <= i < |envs| && envs[i].group == Group(g)
  {
    if |envs| == 0 then []
    else
      var init := envs[..|envs| - 1];
      var e := envs[|envs| - 1];
      SplitLast(envs);
      GroupNames(init) + (if GroupTruthy(e.group) then [e.group.groupName] else [])
  }

  /** `[...new Set(environments.map(env => env.group).filter(Boolean))]`:
      every non-empty group once. */
  function DistinctGroups(envs: seq<Env>): (r: seq<string>)
    ensures NoDuplicates(r)
    ensures forall g :: g in r <==> g != "" && exists i :: 0 <= i < |envs| && envs[i].group == Group(g)
  {
    Distinct(GroupNames(envs))
  }

  /** The listing is in order of first appearance: appending an entry adds
      its group at the end exactly when the group is non-empty and new. */
  lemma DistinctGroupsAppend(envs: seq<Env>, e: Env)
    ensures DistinctGroups(envs + [e]) ==
              if GroupTruthy(e.group) && e.group.groupName !in DistinctGroups(envs)
              then DistinctGroups(envs) + [e.group.groupName]
              else DistinctGroups(envs)
  {
    GroupNamesAppend(envs, e);
    if GroupTruthy(e.group) {
      var g := e.group.groupName;
      DistinctAppend(GroupNames(envs), g);
      assert g in DistinctGroups(envs) <==> g in GroupNames(envs);
    } else {
      assert GroupNames(envs + [e]) == GroupNames(envs);
    }
  }

  lemma GroupNamesAppend(envs: seq<Env>, e: Env)
    ensures GroupNames(envs + [e]) ==
              GroupNames(envs) + (if GroupTruthy(e.group) then [e.group.groupName] else [])
  {
    var xs := envs + [e];
    assert xs[..|xs| - 1] == envs;
  }

  lemma DeleteGroupAppend(envs: seq<Env>, e: Env, name: string)
    ensures DeleteGroup(envs + [e], name) == DeleteGroup(envs, name) + DeleteGroup([e], name)
  {
  }

  // ---------------------------------------------------------------------
  // Removing a group
  // ---------------------------------------------------------------------

  /** `environments.map(env => env.group === name ? {...env, group: g} : env)`. */
  function ReplaceGroup(envs: seq<Env>, name: string, g: GroupField): (r: seq<Env>)
    ensures |r| == |envs|
    ensures forall i :: 0 <= i < |r| ==>
              r[i].name == envs[i].name && r[i].url == envs[i].url && r[i].envType == envs[i].envType
    ensures forall i :: 0 <= i < |r| ==>
              r[i].group == if envs[i].group == Group(name) then g else envs[i].group
  {
    seq(|envs|, i requires 0 <= i < |envs| =>
      if envs[i].group == Group(name) then envs[i].(group := g) else envs[i])
  }

  /** `deleteGroup`: every entry in the group becomes `group: null`; no
      other entry and no other field changes. */
  function DeleteGroup(envs: seq<Env>, name: string): (r: seq<Env>)
    ensures |r| == |envs|
    ensures forall i :: 0 <= i < |r| ==> r[i].group != Group(name)
    ensures forall i :: 0 <= i < |r| && envs[i].group != Group(name) ==> r[i] == envs[i]
    ensures forall i :: 0 <= i < |r| && envs[i].group == Group(name) ==>
              r[i] == envs[i].(group := NullGroup)
  {
    ReplaceGroup(envs, name, NullGroup)
  }

  /** The handler of the "delete group" button: like `DeleteGroup`, but the
      group becomes the empty string instead of `null`. */
  function DeleteGroupButton(envs: seq<Env>, name: string): (r: seq<Env>)
    ensures |r| == |envs|
    ensures name != "" ==> forall i :: 0 <= i < |r| ==> r[i].group != Group(name)
    ensures forall i :: 0 <= i < |r| && envs[i].group != Group(name) ==> r[i] == envs[i]
    ensures forall i :: 0 <= i < |r| && envs[i].group == Group(name) ==>
              r[i] == envs[i].(group := Group(""))
  {
    ReplaceGroup(envs, name, Group(""))
  }

  /** Deleting a group twice is deleting it once. */
  lemma DeleteGroupIdempotent(envs: seq<Env>, name: string)
    ensures DeleteGroup(DeleteGroup(envs, name), name) == DeleteGroup(envs, name)
  {
  }

  /** Every group name except `name`. */
  function Other(name: string): string -> bool
  {
    g => g != name
  }

  lemma GroupNamesAfterDeleteStep(init: seq<Env>, e: Env, name: string)
    requires GroupNames(DeleteGroup(init, name)) == Filter(GroupNames(init), Other(name))
    ensures GroupNames(DeleteGroup(init + [e], name)) == Filter(GroupNames(init + [e]), Other(name))
  {
    var e' := DeleteGroup([e], name)[0];
    DeleteGroupAppend(init, e, name);
    assert DeleteGroup([e], name) == [e'];
    GroupNamesAppend(init, e);
    GroupNamesAppend(DeleteGroup(init, name), e');
    if GroupTruthy(e.group) {
      FilterAppend(GroupNames(init), e.group.groupName, Other(name));
    } else {
      assert GroupNames(init + [e]) == GroupNames(init);
    }
  }

  lemma {:induction false} GroupNamesAfterDelete(envs: seq<Env>, name: string)
    ensures GroupNames(DeleteGroup(envs, name)) == Filter(GroupNames(envs), Other(name))
    decreases |envs|
  {
    if |envs| > 0 {
      var init := envs[..|envs| - 1];
      var e := envs[|envs| - 1];
      GroupNamesAfterDelete(init, name);
      GroupNamesAfterDeleteStep(init, e, name);
      SplitLast(envs);
    }
  }

  /** After deleting a group the group listing is the old one without that
      group, in the same order. */
  lemma DeleteGroupListing(envs: seq<Env>, name: string)
    ensures DistinctGroups(DeleteGroup(envs, name)) == Filter(DistinctGroups(envs), Other(name))
  {
    GroupNamesAfterDelete(envs, name);
    DistinctFilter(GroupNames(envs), Other(name));
  }

  /** The two ways of deleting a non-empty group, `null` and `''`, are
      indistinguishable to every reader of the group: the display bucket,
      the normalised group and the listing. */
  lemma DeleteGroupVariantsAgree(envs: seq<Env>, name: string)
    ensures forall i :: 0 <= i < |envs| ==>
              GroupKey(DeleteGroup(envs, name)[i]) == GroupKey(DeleteGroupButton(envs, name)[i])
              && NormalizeGroup(DeleteGroup(envs, name)[i].group)
                 == NormalizeGroup(DeleteGroupButton(envs, name)[i].group)
  {
  }

  // ---------------------------------------------------------------------
  // Grouping for display
  // ---------------------------------------------------------------------

  /** `env.group || 'Ungrouped'`: the bucket an entry is listed under. */
  function GroupKey(e: Env): (k: string)
    ensures GroupTruthy(e.group) ==> k == e.group.groupName
    ensures !GroupTruthy(e.group) ==> k == "Ungrouped"
  {
    if GroupTruthy(e.group) then e.group.groupName else "Ungrouped"
  }

  /** The entries listed under one heading. */
  datatype Bucket = Bucket(key: string, members: seq<Env>)

  function KeyIs(k: string): Bucket -> bool
  {
    (x: Bucket) => x.key == k
  }

  function HasKey(k: string): Env -> bool
  {
    e => GroupKey(e) == k
  }

  predicate WellBucketed(envs: seq<Env>, r: seq<Bucket>)
  {
    && (forall i, j :: 0 <= i < j < |r| ==> r[i].key != r[j].key)
    && (forall i :: 0 <= i < |r| ==> r[i].members == Filter(envs, HasKey(r[i].key)))
    && (forall i :: 0 <= i < |r| ==> |r[i].members| > 0)
    && (forall k :: 0 <= k < |envs| ==> exists i :: 0 <= i < |r| && r[i].key == GroupKey(envs[k]))
  }

  /** The `reduce` that builds the `groupedEnvs` object: one bucket per
      distinct key in order of first appearance, each holding its entries in
      list order. */
  function GroupEnvs(envs: seq<Env>): (r: seq<Bucket>)
    ensures WellBucketed(envs, r)
  {
    if |envs| == 0 then []
    else
      var init := envs[..|envs| - 1];
      var e := envs[|envs| - 1];
      var b := GroupEnvs(init);
      var k := GroupKey(e);
      var r := match FirstIndex(b, KeyIs(k))
        case Some(j) => b[j := Bucket(k, b[j].members + [e])]
        case None => b + [Bucket(k, [e])];
      GroupEnvsStep(init, e, b, r);
      SplitLast(envs);
      r
  }

  lemma GroupEnvsStep(init: seq<Env>, e: Env, b: seq<Bucket>, r: seq<Bucket>)
    requires WellBucketed(init, b)
    requires r == match FirstIndex(b, KeyIs(GroupKey(e)))
               case Some(j) => b[j := Bucket(GroupKey(e), b[j].members + [e])]
               case None => b + [Bucket(GroupKey(e), [e])]
    ensures WellBucketed(init + [e], r)
  {
    match FirstIndex(b, KeyIs(GroupKey(e)))
    case Some(j) =>
      GroupEnvsJoin(init, e, b, j);
    case None =>
      GroupEnvsOpen(init, e, b);
  }

  /** An entry whose key already has a bucket joins that bucket. */
  lemma GroupEnvsJoin(init: seq<Env>, e: Env, b: seq<Bucket>, j: nat)
    requires WellBucketed(init, b)
    requires j < |b| && b[j].key == GroupKey(e)
    ensures WellBucketed(init + [e], b[j := Bucket(GroupKey(e), b[j].members + [e])])
  {
    var k := GroupKey(e);
    var r := b[j := Bucket(k, b[j].members + [e])];
    var envs := init + [e];
    forall i | 0 <= i < |r|
      ensures r[i].members == Filter(envs, HasKey(r[i].key))
    {
      FilterAppend(init, e, HasKey(r[i].key));
    }
    forall m | 0 <= m < |envs|
      ensures exists i :: 0 <= i < |r| && r[i].key == GroupKey(envs[m])
    {
      if m < |init| {
        assert envs[m] == init[m];
        var i :| 0 <= i < |b| && b[i].key == GroupKey(init[m]);
        assert r[i].key == b[i].key;
      } else {
        assert r[j].key == GroupKey(envs[m]);
      }
    }
  }

  /** An entry with a new key opens a bucket at the end. */
  lemma GroupEnvsOpen(init: seq<Env>, e: Env, b: seq<Bucket>)
    requires WellBucketed(init, b)
    requires forall i :: 0 <= i < |b| ==> b[i].key != GroupKey(e)
    ensures WellBucketed(init + [e], b + [Bucket(GroupKey(e), [e])])
  {
    var k := GroupKey(e);
    var r := b + [Bucket(k, [e])];
    var envs := init + [e];
    forall m | 0 <= m < |init|
      ensures !HasKey(k)(init[m])
    {
      var i :| 0 <= i < |b| && b[i].key == GroupKey(init[m]);
    }
    FilterNone(init, HasKey(k));
    forall i | 0 <= i < |r|
      ensures r[i].members == Filter(envs, HasKey(r[i].key))
    {
      FilterAppend(init, e, HasKey(r[i].key));
    }
    forall m | 0 <= m < |envs|
      ensures exists i :: 0 <= i < |r| && r[i].key == GroupKey(envs[m])
    {
      if m < |init| {
        assert envs[m] == init[m];
        var i :| 0 <= i < |b| && b[i].key == GroupKey(init[m]);
        assert r[i].key == b[i].key;
      } else {
        assert r[|b|].key == GroupKey(envs[m]);
      }
    }
  }

  /** Every entry sits in exactly one bucket: the one whose key is the
      entry's group, or `Ungrouped`. */
  lemma OneBucketEach(envs: seq<Env>, m: nat)
    requires m < |envs|
    ensures exists i :: 0 <= i < |GroupEnvs(envs)| && envs[m] in GroupEnvs(envs)[i].members
    ensures forall i :: 0 <= i < |GroupEnvs(envs)| && envs[m] in GroupEnvs(envs)[i].members ==>
              GroupEnvs(envs)[i].key == GroupKey(envs[m])
  {
    var r := GroupEnvs(envs);
    var i :| 0 <= i < |r| && r[i].key == GroupKey(envs[m]);
    FilterMembership(envs, HasKey(r[i].key), envs[m]);
    forall i' | 0 <= i' < |r| && envs[m] in r[i'].members
      ensures r[i'].key == GroupKey(envs[m])
    {
      FilterMembership(envs, HasKey(r[i'].key), envs[m]);
    }
  }

  // ---------------------------------------------------------------------
  // Rendering the buckets
  // ---------------------------------------------------------------------

  predicate IsDigit(c: char)
  {
    '0' <= c <= '9'
  }

  predicate AllDigits(s: string)
  {
    |s| == 0 || (IsDigit(s[0]) && AllDigits(s[1..]))
  }

  /** The decimal value of a string of digits. */
  function DigitsValue(s: string): nat
  {
    if |s| == 0 then 0
    else
      var c := s[|s| - 1];
      DigitsValue(s[..|s| - 1]) * 10 + (if IsDigit(c) then c as int - '0' as int else 0)
  }

  /** An array index (section 6.1.7 of ECMA-262): the canonical decimal form
      of an integer below 2^32 - 1. An ordinary object lists such keys
      before all others, in ascending numeric order (section 10.1.11.1). */
  predicate IsArrayIndex(k: string)
  {
    && |k| > 0
    && AllDigits(k)
    && (k[0] != '0' || |k| == 1)
    && DigitsValue(k) < 0xFFFF_FFFF
  }

  function IndexBucket(): Bucket -> bool
  {
    (b: Bucket) => IsArrayIndex(b.key)
  }

  function NamedBucket(): Bucket -> bool
  {
    (b: Bucket) => !IsArrayIndex(b.key)
  }

  predicate SortedByIndex(bs: seq<Bucket>)
  {
    forall i, j :: 0 <= i < j < |bs| ==> DigitsValue(bs[i].key) <= DigitsValue(bs[j].key)
  }

  function InsertByIndex(x: Bucket, bs: seq<Bucket>): (r: seq<Bucket>)
    requires SortedByIndex(bs)
    ensures SortedByIndex(r)
    ensures multiset(r) == multiset(bs) + multiset{x}
    ensures |r| == |bs| + 1 && (r[0] == x || (|bs| > 0 && r[0] == bs[0]))
  {
    if |bs| == 0 then [x]
    else if DigitsValue(x.key) <= DigitsValue(bs[0].key) then [x] + bs
    else
      assert bs == [bs[0]] + bs[1..];
      [bs[0]] + InsertByIndex(x, bs[1..])
  }

  /** Insertion sort by numeric key. */
  function SortByIndex(bs: seq<Bucket>): (r: seq<Bucket>)
    ensures SortedByIndex(r)
    ensures multiset(r) == multiset(bs)
  {
    if |bs| == 0 then []
    else
      assert bs == [bs[0]] + bs[1..];
      InsertByIndex(bs[0], SortByIndex(bs[1..]))
  }

  /** Sorting a list of index-keyed buckets keeps them index-keyed. */
  lemma SortKeepsIndexKeys(indexed: seq<Bucket>)
    requires forall i :: 0 <= i < |indexed| ==> IsArrayIndex(indexed[i].key)
    ensures forall i :: 0 <= i < |SortByIndex(indexed)| ==> IsArrayIndex(SortByIndex(indexed)[i].key)
  {
    var sorted := SortByIndex(indexed);
    forall i | 0 <= i < |sorted|
      ensures IsArrayIndex(sorted[i].key)
    {
      assert sorted[i] in multiset(indexed);
      var j :| 0 <= j < |indexed| && indexed[j] == sorted[i];
    }
  }

  /** Splitting a list by a test and joining the parts is a permutation. */
  lemma SplitPermutes(bs: seq<Bucket>, xs: seq<Bucket>)
    requires multiset(xs) == multiset(Filter(bs, IndexBucket()))
    ensures multiset(xs + Filter(bs, NamedBucket())) == multiset(bs)
  {
    FilterCount(bs, IndexBucket());
    FilterCount(bs, NamedBucket());
    var named := Filter(bs, NamedBucket());
    forall x ensures multiset(xs + named)[x] == multiset(bs)[x] {
    }
  }

  /** `Object.entries(groupedEnvs)`: the buckets keyed by an array index in
      ascending numeric order, then the other buckets in the order they were
      created. */
  function DisplayOrder(bs: seq<Bucket>): (r: seq<Bucket>)
    ensures multiset(r) == multiset(bs)
    ensures forall i, j :: 0 <= i < j < |r| && IsArrayIndex(r[j].key) ==>
              IsArrayIndex(r[i].key) && DigitsValue(r[i].key) <= DigitsValue(r[j].key)
    ensures Filter(r, NamedBucket()) == Filter(bs, NamedBucket())
  {
    var indexed := Filter(bs, IndexBucket());
    var named := Filter(bs, NamedBucket());
    var sorted := SortByIndex(indexed);
    SortKeepsIndexKeys(indexed);
    SplitPermutes(bs, sorted);
    FilterConcat(sorted, named, NamedBucket());
    FilterNone(sorted, NamedBucket());
    FilterAll(named, NamedBucket());
    IndexedThenNamed(sorted, named);
    sorted + named
  }

  lemma IndexedThenNamed(sorted: seq<Bucket>, named: seq<Bucket>)
    requires SortedByIndex(sorted)
    requires forall i :: 0 <= i < |sorted| ==> IsArrayIndex(sorted[i].key)
    requires forall i :: 0 <= i < |named| ==> NamedBucket()(named[i])
    ensures var r := sorted + named;
            forall i, j :: 0 <= i < j < |r| && IsArrayIndex(r[j].key) ==>
              IsArrayIndex(r[i].key) && DigitsValue(r[i].key) <= DigitsValue(r[j].key)
  {
    var r := sorted + named;
    forall i, j | 0 <= i < j < |r| && IsArrayIndex(r[j].key)
      ensures IsArrayIndex(r[i].key) && DigitsValue(r[i].key) <= DigitsValue(r[j].key)
    {
      assert j < |sorted|;
      assert r[i] == sorted[i] && r[j] == sorted[j];
    }
  }

  /** Without a numeric group name the headings keep the order in which
      their groups first occur. */
  lemma DisplayOrderWithoutIndexKeys(bs: seq<Bucket>)
    requires forall i :: 0 <= i < |bs| ==> !IsArrayIndex(bs[i].key)
    ensures DisplayOrder(bs) == bs
  {
    FilterNone(bs, IndexBucket());
    FilterAll(bs, NamedBucket());
  }

  /** The keys an empty object already answers through `Object.prototype`. */
  predicate IsPrototypeKey(k: string)
  {
    k in {"constructor", "hasOwnProperty", "isPrototypeOf", "propertyIsEnumerable",
          "toLocaleString", "toString", "valueOf", "__proto__",
          "__defineGetter__", "__defineSetter__", "__lookupGetter__", "__lookupSetter__"}
  }

  function HasPrototypeKey(): Env -> bool
  {
    (e: Env) => IsPrototypeKey(GroupKey(e))
  }

  /** The grouping and the headings of `updateEnvironmentList`. For a group
      named like an `Object.prototype` member, `groups[group]` is already
      truthy, no bucket is made and `push` throws; the list, cleared just
      before, stays empty (`None`). Otherwise the buckets are shown in
      `Object.entries` order. */
  function GroupedDisplay(envs: seq<Env>): (r: Option<seq<Bucket>>)
    ensures r.None? <==> exists i :: 0 <= i < |envs| && IsPrototypeKey(GroupKey(envs[i]))
    ensures r.Some? ==> multiset(r.value) == multiset(GroupEnvs(envs))
    ensures r.Some? ==> forall i, j :: 0 <= i < j < |r.value| && IsArrayIndex(r.value[j].key) ==>
              IsArrayIndex(r.value[i].key) && DigitsValue(r.value[i].key) <= DigitsValue(r.value[j].key)
    ensures r.Some? ==> Filter(r.value, NamedBucket()) == Filter(GroupEnvs(envs), NamedBucket())
  {
    if Any(envs, HasPrototypeKey()) then None
    else Some(DisplayOrder(GroupEnvs(envs)))
  }

  /** Whenever the list renders, every entry appears under exactly one
      heading: its group's, or `Ungrouped`. */
  lemma DisplayListsEveryEntry(envs: seq<Env>, m: nat)
    requires m < |envs| && GroupedDisplay(envs).Some?
    ensures exists i :: 0 <= i < |GroupedDisplay(envs).value|
              && GroupedDisplay(envs).value[i].key == GroupKey(envs[m])
              && envs[m] in GroupedDisplay(envs).value[i].members
    ensures forall i :: 0 <= i < |GroupedDisplay(envs).value| && envs[m] in GroupedDisplay(envs).value[i].members ==>
              GroupedDisplay(envs).value[i].key == GroupKey(envs[m])
  {
    var b := GroupEnvs(envs);
    var r := GroupedDisplay(envs).value;
    OneBucketEach(envs, m);
    var i :| 0 <= i < |b| && envs[m] in b[i].members;
    assert b[i] in multiset(r);
    var i' :| 0 <= i' < |r| && r[i'] == b[i];
    forall j | 0 <= j < |r| && envs[m] in r[j].members
      ensures r[j].key == GroupKey(envs[m])
    {
      assert r[j] in multiset(b);
      var j' :| 0 <= j' < |b| && b[j'] == r[j];
    }
  }

  lemma BetaIsNamed()
    ensures !IsArrayIndex("beta")
  {
    assert !IsDigit("beta"[0]);
  }

  lemma TwoIsIndex()
    ensures IsArrayIndex("2")
  {
    assert "2"[..0] == [] && "2"[1..] == [];
    assert DigitsValue("2") == 2;
  }

  lemma GroupEnvsOne(e1: Env)
    requires e1.group == Group("beta")
    ensures GroupEnvs([e1]) == [Bucket("beta", [e1])]
  {
    assert [e1][..0] == [];
    assert GroupEnvs([]) == [];
    assert GroupKey(e1) == "beta";
  }

  lemma GroupEnvsTwo(e1: Env, e2: Env)
    requires e1.group == Group("beta") && e2.group == Group("2")
    ensures GroupEnvs([e1, e2]) == [Bucket("beta", [e1]), Bucket("2", [e2])]
  {
    GroupEnvsOne(e1);
    assert [e1, e2][..1] == [e1];
    assert GroupKey(e2) == "2";
    var b := [Bucket("beta", [e1])];
    assert b[0].key != "2";
    assert FirstIndex(b, KeyIs("2")) == None;
  }

  lemma DisplayOrderTwo(b1: Bucket, b2: Bucket)
    requires b1.key == "beta" && b2.key == "2"
    ensures DisplayOrder([b1, b2]) == [b2, b1]
  {
    BetaIsNamed();
    TwoIsIndex();
    assert [b1, b2][1..] == [b2] && [b2][1..] == [];
    assert Filter([b1, b2], IndexBucket()) == [b2];
    assert Filter([b1, b2], NamedBucket()) == [b1];
    assert SortByIndex([b2]) == [b2];
  }

  /** A numeric group is shown first even when it was created last. */
  lemma NumericHeadingFirst(e1: Env, e2: Env)
    requires e1.group == Group("beta") && e2.group == Group("2")
    ensures GroupedDisplay([e1, e2]) == Some([Bucket("2", [e2]), Bucket("beta", [e1])])
  {
    GroupEnvsTwo(e1, e2);
    DisplayOrderTwo(Bucket("beta", [e1]), Bucket("2", [e2]));
    NoPrototypeKey(e1, e2);
  }

  lemma NoPrototypeKey(e1: Env, e2: Env)
    requires e1.group == Group("beta") && e2.group == Group("2")
    ensures !Any([e1, e2], HasPrototypeKey())
  {
    assert GroupKey(e1) == "beta" && GroupKey(e2) == "2";
    assert |"beta"| == 4 && "beta"[0] == 'b';
    assert !IsPrototypeKey("beta");
    assert !IsPrototypeKey("2");
    assert !HasPrototypeKey()(e1) && !HasPrototypeKey()(e2);
    assert forall i :: 0 <= i < 2 ==> !HasPrototypeKey()([e1, e2][i]);
  }

  // ---------------------------------------------------------------------
  // Deleting an entry
  // ---------------------------------------------------------------------

  /** The delete button: `filter(env => !(env.name === name && env.url === url))`. */
  function DeleteEnv(envs: seq<Env>, name: string, url: string): (r: seq<Env>)
    ensures IsSublist(r, envs)
    ensures forall i :: 0 <= i < |r| ==> !(r[i].name == name && r[i].url == url)
    ensures forall e: Env :: !(e.name == name && e.url == url) ==> multiset(r)[e] == multiset(envs)[e]
  {
    FilterCount(envs, (e: Env) => !(e.name == name && e.url == url));
    FilterSublist(envs, (e: Env) => !(e.name == name && e.url == url));
    Filter(envs, (e: Env) => !(e.name == name && e.url == url))
  }

  // ---------------------------------------------------------------------
  // Adding and editing through the form
  // ---------------------------------------------------------------------

  /** The form's outcome when it rejects the submission. */
  datatype SubmitError = MissingFields | InvalidUrl | DuplicateTypeUrl | EditTargetMissing

  /** No two entries share both type and url: the invariant the form's
      duplicate checks keep. */
  predicate UniqueTypeUrl(envs: seq<Env>)
  {
    forall i, j :: 0 <= i < j < |envs| ==>
      !(envs[i].envType == envs[j].envType && envs[i].url == envs[j].url)
  }

  /** The record the form stores: generated name, trimmed fields, and
      `group || null`. */
  function NewRecord(t: string, url: string, group: string, parse: Parser): (e: Env)
    ensures e.envType == t && e.url == url
    ensures e.name == BaseName(t, url, parse)
    ensures group == "" ==> e.group == NullGroup
    ensures group != "" ==> e.group == Group(group)
  {
    Env(BaseName(t, url, parse), url, if group == "" then NullGroup else Group(group), t)
  }

  /** The adding branch: rejected when an entry with the same type and url
      exists, otherwise the record goes at the end. */
  function AddEnvironment(envs: seq<Env>, e: Env): (r: Result<seq<Env>, SubmitError>)
    ensures r.Err? <==> exists i :: 0 <= i < |envs| && envs[i].envType == e.envType && envs[i].url == e.url
    ensures r.Err? ==> r.error == DuplicateTypeUrl
    ensures r.Ok? ==> |r.value| == |envs| + 1 && r.value[..|envs|] == envs && r.value[|envs|] == e
  {
    if Any(envs, (x: Env) => x.envType == e.envType && x.url == e.url) then Err(DuplicateTypeUrl)
    else Ok(envs + [e])
  }

  /** `k` is the index of the first entry with the original name and url,
      the one `findIndex` returns. */
  predicate IsEditTarget(envs: seq<Env>, origName: string, origUrl: string, k: int)
  {
    && 0 <= k < |envs|
    && envs[k].name == origName && envs[k].url == origUrl
    && forall i :: 0 <= i < k ==> !(envs[i].name == origName && envs[i].url == origUrl)
  }

  /** Some entry other than the `k`-th already has the type and url of `e`. */
  predicate ClashesElsewhere(envs: seq<Env>, k: int, e: Env)
  {
    exists i :: 0 <= i < |envs| && i != k && envs[i].envType == e.envType && envs[i].url == e.url
  }

  /** The editing branch: the first entry with the original name and url is
      replaced, unless another entry already has the new type and url; with
      no such entry nothing is stored. */
  function EditEnvironment(envs: seq<Env>, origName: string, origUrl: string, e: Env)
    : (r: Result<seq<Env>, SubmitError>)
    ensures r.Err? ==> r.error == EditTargetMissing || r.error == DuplicateTypeUrl
    ensures r == Err(EditTargetMissing) <==>
              forall i :: 0 <= i < |envs| ==> !(envs[i].name == origName && envs[i].url == origUrl)
    ensures r == Err(DuplicateTypeUrl) <==>
              exists k :: IsEditTarget(envs, origName, origUrl, k) && ClashesElsewhere(envs, k, e)
    ensures r.Ok? <==>
              exists k :: IsEditTarget(envs, origName, origUrl, k) && !ClashesElsewhere(envs, k, e)
    ensures forall k :: IsEditTarget(envs, origName, origUrl, k) && !ClashesElsewhere(envs, k, e) ==>
              r == Ok(envs[k := e])
  {
    match FirstIndex(envs, (x: Env) => x.name == origName && x.url == origUrl)
    case None => Err(EditTargetMissing)
    case Some(k) =>
      assert IsEditTarget(envs, origName, origUrl, k);
      EditTargetUnique(envs, origName, origUrl, k);
      if ClashesElsewhere(envs, k, e) then Err(DuplicateTypeUrl)
      else Ok(envs[k := e])
  }

  /** There is only one first match. */
  lemma EditTargetUnique(envs: seq<Env>, origName: string, origUrl: string, k: int)
    requires IsEditTarget(envs, origName, origUrl, k)
    ensures forall k' :: IsEditTarget(envs, origName, origUrl, k') ==> k' == k
  {
  }

  /** The values the submit handler reads from the form. `editing` is the
      button's `data-editing` (the original name, empty when absent) and
      `editingUrl` its `data-editing-url`. */
  datatype Form = Form(envType: string, url: string, group: string, editing: string, editingUrl: string)

  /** The submit handler: trim the fields, reject a missing type or url and
      an unparsable url, build the record, then edit or add. */
  function Submit(envs: seq<Env>, f: Form, parse: Parser): (r: Result<seq<Env>, SubmitError>)
    ensures Trim(f.envType) == "" || Trim(f.url) == "" ==> r == Err(MissingFields)
    ensures Trim(f.envType) != "" && Trim(f.url) != "" && parse(Trim(f.url)).None? ==> r == Err(InvalidUrl)
    ensures Trim(f.envType) != "" && Trim(f.url) != "" && parse(Trim(f.url)).Some? ==>
              r == Store(envs, NewRecord(Trim(f.envType), Trim(f.url), Trim(f.group), parse), f.editing, f.editingUrl)
    ensures r.Ok? ==> NewRecord(Trim(f.envType), Trim(f.url), Trim(f.group), parse) in r.value
    ensures r.Ok? && f.editing == "" ==>
              r.value == envs + [NewRecord(Trim(f.envType), Trim(f.url), Trim(f.group), parse)]
    ensures r.Ok? && f.editing != "" ==>
              exists k :: IsEditTarget(envs, f.editing, f.editingUrl, k)
                && r.value == envs[k := NewRecord(Trim(f.envType), Trim(f.url), Trim(f.group), parse)]
  {
    var t := Trim(f.envType);
    var url := Trim(f.url);
    var group := Trim(f.group);
    if t == "" || url == "" then Err(MissingFields)
    else if parse(url).None? then Err(InvalidUrl)
    else Store(envs, NewRecord(t, url, group, parse), f.editing, f.editingUrl)
  }

  /** The branch between editing (when `data-editing` is set) and adding:
      an edit replaces the first matching entry in place, an add appends. */
  function Store(envs: seq<Env>, e: Env, editing: string, editingUrl: string)
    : (r: Result<seq<Env>, SubmitError>)
    ensures editing != "" ==> r == EditEnvironment(envs, editing, editingUrl, e)
    ensures editing == "" ==> r == AddEnvironment(envs, e)
    ensures r.Ok? ==> e in r.value
    ensures r.Ok? && editing == "" ==> r.value == envs + [e]
    ensures r.Ok? && editing != "" ==>
              exists k :: IsEditTarget(envs, editing, editingUrl, k) && r.value == envs[k := e]
  {
    if editing != "" then
      var r := EditEnvironment(envs, editing, editingUrl, e);
      assert r.Ok? ==> exists k :: IsEditTarget(envs, editing, editingUrl, k) && r.value == envs[k := e];
      assert r.Ok? ==> e in r.value by {
        if r.Ok? {
          var k :| IsEditTarget(envs, editing, editingUrl, k) && r.value == envs[k := e];
          assert r.value[k] == e;
        }
      }
      r
    else
      var r := AddEnvironment(envs, e);
      assert r.Ok? ==> r.value[|envs|] == e && r.value == envs + [e];
      r
  }

  /** Adding keeps type-and-url pairs unique. */
  lemma AddPreservesUnique(envs: seq<Env>, e: Env)
    requires UniqueTypeUrl(envs)
    requires AddEnvironment(envs, e).Ok?
    ensures UniqueTypeUrl(AddEnvironment(envs, e).value)
  {
  }

  /** Editing keeps type-and-url pairs unique. */
  lemma EditPreservesUnique(envs: seq<Env>, origName: string, origUrl: string, e: Env)
    requires UniqueTypeUrl(envs)
    requires EditEnvironment(envs, origName, origUrl, e).Ok?
    ensures UniqueTypeUrl(EditEnvironment(envs, origName, origUrl, e).value)
  {
    var r := EditEnvironment(envs, origName, origUrl, e).value;
    var k :| IsEditTarget(envs, origName, origUrl, k) && !ClashesElsewhere(envs, k, e);
    assert r == envs[k := e];
    forall i, j | 0 <= i < j < |r|
      ensures !(r[i].envType == r[j].envType && r[i].url == r[j].url)
    {
      if i == k {
        assert r[j] == envs[j];
      } else if j == k {
        assert r[i] == envs[i];
      }
    }
  }

  /** Every accepted submission keeps type-and-url pairs unique. */
  lemma SubmitPreservesUnique(envs: seq<Env>, f: Form, parse: Parser)
    requires UniqueTypeUrl(envs)
    requires Submit(envs, f, parse).Ok?
    ensures UniqueTypeUrl(Submit(envs, f, parse).value)
  {
    var e := NewRecord(Trim(f.envType), Trim(f.url), Trim(f.group), parse);
    if f.editing != "" {
      EditPreservesUnique(envs, f.editing, f.editingUrl, e);
    } else {
      AddPreservesUnique(envs, e);
    }
  }

  /** Deleting what was just added restores the registry, up to entries
      with the same name and url that the delete also removes. */
  lemma AddThenDelete(envs: seq<Env>, e: Env)
    requires AddEnvironment(envs, e).Ok?
    ensures DeleteEnv(AddEnvironment(envs, e).value, e.name, e.url) == DeleteEnv(envs, e.name, e.url)
  {
    FilterAppend(envs, e, (x: Env) => !(x.name == e.name && x.url == e.url));
  }
}
