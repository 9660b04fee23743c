/** Two-way relations: an item is listed under its group exactly when the group is listed under the item. */
module DeltaRel {
  import opened BPTypes
  import opened CStrings
  import opened KvStore
  import opened Keys
  import opened SortedVec
  import opened DeltaStep
  import opened DeltaView
  import opened DeltaSet

  const GROUP_MEMBERS := "#GMB"
  const GROUP_IN := "#GIN"

  /** The record that lists the members of `g`, and the record that lists the groups `a` is in. */
  function MembersOf(g: KeySpec): KeySpec {
    g.(core := GROUP_MEMBERS)
  }

  function GroupsOf(a: KeySpec): KeySpec {
    a.(core := GROUP_IN)
  }

  predicate Entity(g: KeySpec) {
    Clean(g) && g.op == OpSet
  }

  /** `a` is a listed member of `g`; `g` is a listed group of `a`. */
  ghost predicate HasMember(e: Recs, g: KeySpec, a: KeySpec) {
    ComposeKeyPrefix(a) in Cur(e, MembersOf(g))
  }

  ghost predicate IsIn(e: Recs, a: KeySpec, g: KeySpec) {
    ComposeKeyPrefix(g) in Cur(e, GroupsOf(a))
  }

  ghost predicate Symmetric(e: Recs) {
    forall g, a :: Entity(g) && Entity(a) ==> (HasMember(e, g, a) <==> IsIn(e, a, g))
  }

  predicate IsList(sp: KeySpec) {
    Entity(sp) && (sp.core == GROUP_MEMBERS || sp.core == GROUP_IN)
  }

  ghost predicate AllReady(e: Recs, track: bool) {
    forall sp :: IsList(sp) ==> Ready(e, sp, track)
  }

  /** Every group has relatives of one kind. */
  ghost predicate Typed(e: Recs, kinds: KeySpec -> KeySpec) {
    forall g, x :: IsList(g) && g.core == GROUP_MEMBERS && x in Cur(e, g) ==> Conforms(kinds(g), x)
  }

  /** A store the relation engine works on, with cumulative lists (in a worker) or without (in the main process). */
  ghost predicate World(e: Recs, kinds: KeySpec -> KeySpec, track: bool) {
    Symmetric(e) && AllReady(e, track) && Typed(e, kinds)
  }

  /** The specifications agree except in the part an item supplies. */
  predicate SameKind(a: KeySpec, b: KeySpec) {
    && a.ns == b.ns
    && (if a.ns.NsDev? then a == b.(nsPart := a.nsPart) else a == b.(id := a.id))
  }

  /** A set of the members of group `cur` whose members are described by `rel`. */
  ghost predicate GoodCall(cur: KeySpec, rel: KeySpec, items: set<string>, kinds: KeySpec -> KeySpec) {
    && IsList(cur) && cur.core == GROUP_MEMBERS && IsList(rel) && rel.core == GROUP_IN && TwoSides(cur, rel)
    && SameKind(rel, kinds(cur))
    && (forall x :: x in items ==> Conforms(rel, x))
  }

  lemma SameKindConforms(a: KeySpec, b: KeySpec, x: string)
    requires SameKind(a, b) && (Conforms(b, x) || Conforms(a, x))
    ensures Conforms(a, x) && Conforms(b, x) && Mirror(a, x) == Mirror(b, x)
  {
    hide KeyPart, ComposeKeyPrefix, Clean;
  }

  /** The prefix of a relative names it if and only if the part taken from it comes back: the device part always does, an
      identifier if it has no separator. */
  lemma ConformsIff(rel: KeySpec, a: KeySpec)
    requires Entity(a) && SameKind(a, rel) && (rel.ns.NsDev? || rel.ns.NsMod?)
    ensures Conforms(rel, ComposeKeyPrefix(a)) <==> rel.ns.NsDev? || Bare(a.id)
  {
    hide KeyPart, ComposeKeyPrefix, Cut;
    var x := ComposeKeyPrefix(a);
    PrefixParts(a);
    assert rel.ns.NsDev? ==> Mirror(rel, x) == a;
    assert rel.ns.NsMod? ==> Mirror(rel, x) == a.(id := a.id[..Cut(a.id)]);
    if Conforms(rel, x) { PrefixInjective(Mirror(rel, x), a); }
  }

  lemma MovedConform(e: Recs, cur: KeySpec, rel: KeySpec, op: KvOp, items: set<string>, kinds: KeySpec -> KeySpec)
    requires Typed(e, kinds) && GoodCall(cur, rel, items, kinds)
    ensures forall x :: x in Moved(e, cur, op, items) ==> Conforms(rel, x)
    ensures forall x :: x in FinalSet(op, Cur(e, cur), items) ==> Conforms(kinds(cur), x)
  {
    hide Conforms, TwoSides, Cur;
    forall x | x in Cur(e, cur) + items ensures Conforms(rel, x) && Conforms(kinds(cur), x) {
      SameKindConforms(rel, kinds(cur), x);
    }
  }

  lemma MirrorIsList(rel: KeySpec, x: string)
    requires IsList(rel) && Conforms(rel, x)
    ensures IsList(Mirror(rel, x)) && Mirror(rel, x).core == rel.core
  {
  }

  /** In a good world every good call has what it needs. */
  lemma WorldSettable(s: Store, cur: KeySpec, rel: KeySpec, op: KvOp, items: set<string>, kinds: KeySpec -> KeySpec, track: bool)
    requires World(s.recs, kinds, track) && GoodCall(cur, rel, items, kinds)
    ensures Settable(Begin(s), cur, rel, op, items, true, track)
  {
    hide Conforms, Ready, Keys3, Cur;
    BeginIs(s);
    MovedConform(s.recs, cur, rel, op, items, kinds);
    forall x | x in Moved(s.recs, cur, op, items) ensures Ready(s.recs, Mirror(rel, x), track) {
      MirrorIsList(rel, x);
    }
  }

  /** Keys of lists that a call does not name. */
  lemma CallMisses(e: Recs, cur: KeySpec, rel: KeySpec, op: KvOp, items: set<string>, kinds: KeySpec -> KeySpec, sp: KeySpec)
    requires Typed(e, kinds) && GoodCall(cur, rel, items, kinds) && IsList(sp) && sp != cur
    requires forall x :: x in Moved(e, cur, op, items) ==> sp != Mirror(rel, x)
    ensures Keys3(sp) !! SetKeys(e, cur, rel, op, items, true)
  {
    hide Conforms, Keys3, Cur, Moved, Mirror;
    MovedConform(e, cur, rel, op, items, kinds);
    KeysApart(sp, cur);
    forall x | x in Moved(e, cur, op, items) ensures Keys3(sp) !! Keys3(Mirror(rel, x)) {
      MirrorIsList(rel, x);
      KeysApart(sp, Mirror(rel, x));
    }
  }

  /** What a call does to any one list. */
  lemma CallAt(e: Recs, e2: Recs, cur: KeySpec, rel: KeySpec, op: KvOp, items: set<string>, kinds: KeySpec -> KeySpec, sp: KeySpec, h: seq<string>, track: bool)
    requires Typed(e, kinds) && AllReady(e, track) && GoodCall(cur, rel, items, kinds) && IsList(sp)
    requires SetOn(e, e2, cur, rel, op, items, h, true, track)
    ensures Ready(e2, sp, track) && (track ==> Base(e2, sp) == Base(e, sp))
    ensures sp == cur ==> Cur(e2, sp) == FinalSet(op, Cur(e, cur), items)
    ensures sp.core == GROUP_MEMBERS && sp != cur ==> Cur(e2, sp) == Cur(e, sp)
    ensures sp.core == GROUP_IN ==>
      var x, g := ComposeKeyPrefix(sp), ComposeKeyPrefix(cur);
      Cur(e2, sp) == if x in PlusSet(op, Cur(e, cur), items) then Cur(e, sp) + {g}
                     else if x in MinusSet(op, Cur(e, cur), items) then Cur(e, sp) - {g} else Cur(e, sp)
  {
    hide Conforms, Keys3, Cur, Mirror, Ready, Base, PlusSet, MinusSet, OnlyAt, ComposeKeyPrefix;
    MovedConform(e, cur, rel, op, items, kinds);
    StepAlgebra(op, Cur(e, cur), items);
    var x := ComposeKeyPrefix(sp);
    if sp == cur {
    } else if x in Moved(e, cur, op, items) && sp == Mirror(rel, x) {
      MirrorIsList(rel, x);
      FinalOne(Cur(e, sp), ComposeKeyPrefix(cur));
    } else {
      forall y | y in Moved(e, cur, op, items) ensures sp != Mirror(rel, y) { MirrorPrefix(rel, y); }
      CallMisses(e, cur, rel, op, items, kinds, sp);
      Untouched(e, e2, SetKeys(e, cur, rel, op, items, true), sp);
      if x in Moved(e, cur, op, items) { MirrorPrefix(rel, x); NotMirror(sp, rel, x); }
    }
  }

  lemma MirrorPrefix(rel: KeySpec, x: string)
    requires Conforms(rel, x)
    ensures ComposeKeyPrefix(Mirror(rel, x)) == x && Mirror(rel, x).core == rel.core && Clean(Mirror(rel, x))
  {
  }

  /** A member list with the prefix of a relative is that relative's. */
  lemma NotMirror(sp: KeySpec, rel: KeySpec, x: string)
    requires Entity(sp) && Conforms(rel, x) && ComposeKeyPrefix(sp) == x && sp != Mirror(rel, x)
    ensures sp.core != rel.core
  {
    hide ComposeKeyPrefix, Clean;
    MirrorPrefix(rel, x);
    PrefixInjective(sp, Mirror(rel, x));
  }

  lemma FinalOne(s: set<string>, x: string)
    ensures FinalSet(OpPlus, s, {x}) == s + {x} && FinalSet(OpMinus, s, {x}) == s - {x}
  {
  }

  /** Every good call keeps a good world good, and every list keeps its snapshot. */
  lemma CallKeepsWorld(e: Recs, e2: Recs, cur: KeySpec, rel: KeySpec, op: KvOp, items: set<string>, kinds: KeySpec -> KeySpec,
                       h: seq<string>, track: bool)
    requires World(e, kinds, track) && GoodCall(cur, rel, items, kinds)
    requires SetOn(e, e2, cur, rel, op, items, h, true, track)
    ensures World(e2, kinds, track)
    ensures track ==> forall sp :: IsList(sp) ==> Base(e2, sp) == Base(e, sp)
  {
    hide SetOn, Conforms, Cur, Ready, Base, GoodCall, ComposeKeyPrefix, Clean;
    forall sp | IsList(sp) ensures Ready(e2, sp, track) && (track ==> Base(e2, sp) == Base(e, sp)) {
      CallAt(e, e2, cur, rel, op, items, kinds, sp, h, track);
    }
    CallIsGroup(cur, rel, items, kinds);
    MovedConform(e, cur, rel, op, items, kinds);
    forall g, x | IsList(g) && g.core == GROUP_MEMBERS && x in Cur(e2, g) ensures Conforms(kinds(g), x) {
      CallAt(e, e2, cur, rel, op, items, kinds, g, h, track);
    }
    forall g, a | Entity(g) && Entity(a) ensures HasMember(e2, g, a) <==> IsIn(e2, a, g) {
      PairKept(e, e2, cur, rel, op, items, kinds, g, a, h, track);
    }
  }

  lemma CallIsGroup(cur: KeySpec, rel: KeySpec, items: set<string>, kinds: KeySpec -> KeySpec)
    requires GoodCall(cur, rel, items, kinds)
    ensures IsList(cur) && cur.core == GROUP_MEMBERS
  {
  }

  lemma ListsOf(g: KeySpec)
    requires Entity(g)
    ensures IsList(MembersOf(g)) && IsList(GroupsOf(g))
    ensures ComposeKeyPrefix(MembersOf(g)) == ComposeKeyPrefix(g) && ComposeKeyPrefix(GroupsOf(g)) == ComposeKeyPrefix(g)
  {
  }

  lemma PairKept(e: Recs, e2: Recs, cur: KeySpec, rel: KeySpec, op: KvOp, items: set<string>, kinds: KeySpec -> KeySpec,
                 g: KeySpec, a: KeySpec, h: seq<string>, track: bool)
    requires World(e, kinds, track) && GoodCall(cur, rel, items, kinds) && Entity(g) && Entity(a)
    requires SetOn(e, e2, cur, rel, op, items, h, true, track)
    ensures HasMember(e2, g, a) <==> IsIn(e2, a, g)
  {
    hide SetOn, Conforms, Cur, Ready, Base, ComposeKeyPrefix, Clean, PlusSet, MinusSet, FinalSet, TwoSides;
    ListsOf(g);
    ListsOf(a);
    assert HasMember(e, g, a) <==> IsIn(e, a, g);
    CallAt(e, e2, cur, rel, op, items, kinds, MembersOf(g), h, track);
    CallAt(e, e2, cur, rel, op, items, kinds, GroupsOf(a), h, track);
    StepAlgebra(op, Cur(e, cur), items);
    if MembersOf(g) != cur && ComposeKeyPrefix(g) == ComposeKeyPrefix(cur) {
      PrefixInjective(MembersOf(g), cur);
    }
  }

  const ENOTEMPTY := 39

  /** ubr.c _handle_devs_for_group: the given members, or the current device, are added to or removed from a group. */
  method HandleDevsForGroup(kvs: KvStore, group: KeySpec, member: KeySpec, header: seq<string>, devs: Option<seq<string>>,
                            op: KvOp, isSync: bool, ghost kinds: KeySpec -> KeySpec) returns (r: int)
    requires kvs.rollbackBuf.None? && World(kvs.recs, kinds, !isSync)
    requires |header| == HEADER && (devs.Some? ==> Ascending(devs.value))
    requires GoodCall(group, member, Elems(Given(member, devs)), kinds)
    modifies kvs
    ensures r == 0 && kvs.rollbackBuf.None? && World(kvs.recs, kinds, !isSync)
    ensures Cur(kvs.recs, group) == FinalSet(op, old(Cur(kvs.recs, group)), Elems(Given(member, devs)))
    ensures HeaderAt(kvs.recs, StoreKey(group), header)
    ensures forall x :: x in old(Moved(kvs.recs, group, op, Elems(Given(member, devs)))) ==>
      HeaderAt(kvs.recs, StoreKey(Mirror(member, x)), ForRelatives(header))
    ensures forall g :: IsList(g) && g.core == GROUP_MEMBERS && g != group ==> Cur(kvs.recs, g) == old(Cur(kvs.recs, g))
    ensures !isSync ==> forall sp :: IsList(sp) ==> Base(kvs.recs, sp) == old(Base(kvs.recs, sp))
  {
    var items := if devs.Some? then devs.value else [ComposeKeyPrefix(member)];
    var newv := header + items;
    DataOfVector(header, items);
    WorldSettable(kvs.State(), group, member, op, Elems(items), kinds, !isSync);
    r := SetGroup(kvs, group, member, op, newv, isSync, kinds);
  }

  function Given(member: KeySpec, devs: Option<seq<string>>): seq<string> {
    if devs.Some? then devs.value else [ComposeKeyPrefix(member)]
  }

  /** A set of a group's members in a good world. */
  method SetGroup(kvs: KvStore, group: KeySpec, member: KeySpec, op: KvOp, newv: seq<string>, isSync: bool,
                  ghost kinds: KeySpec -> KeySpec) returns (r: int)
    requires kvs.rollbackBuf.None? && World(kvs.recs, kinds, !isSync)
    requires |newv| >= HEADER && Ascending(Data(newv)) && GoodCall(group, member, Elems(Data(newv)), kinds)
    modifies kvs
    ensures r == 0 && kvs.rollbackBuf.None? && World(kvs.recs, kinds, !isSync)
    ensures Cur(kvs.recs, group) == FinalSet(op, old(Cur(kvs.recs, group)), Elems(Data(newv)))
    ensures HeaderAt(kvs.recs, StoreKey(group), newv[..HEADER])
    ensures forall x :: x in old(Moved(kvs.recs, group, op, Elems(Data(newv)))) ==>
      HeaderAt(kvs.recs, StoreKey(Mirror(member, x)), ForRelatives(newv[..HEADER]))
    ensures forall g :: IsList(g) && g.core == GROUP_MEMBERS && g != group ==> Cur(kvs.recs, g) == old(Cur(kvs.recs, g))
    ensures !isSync ==> forall sp :: IsList(sp) ==> Base(kvs.recs, sp) == old(Base(kvs.recs, sp))
  {
    hide World, SetOn, Settable, GoodCall, Cur, Base, Data, FinalSet;
    ghost var e := kvs.recs;
    ghost var items := Elems(Data(newv));
    WorldSettable(kvs.State(), group, member, op, items, kinds, !isSync);
    r := KvDeltaSet(kvs, group, member, op, newv, isSync);
    ghost var h := newv[..HEADER];
    CallKeepsWorld(e, kvs.recs, group, member, op, items, kinds, h, !isSync);
    CallEffect(e, kvs.recs, group, member, op, items, kinds, h, !isSync);
  }

  lemma CallEffect(e: Recs, e2: Recs, cur: KeySpec, rel: KeySpec, op: KvOp, items: set<string>, kinds: KeySpec -> KeySpec, h: seq<string>, track: bool)
    requires World(e, kinds, track) && GoodCall(cur, rel, items, kinds)
    requires SetOn(e, e2, cur, rel, op, items, h, true, track)
    ensures Cur(e2, cur) == FinalSet(op, Cur(e, cur), items) && HeaderAt(e2, StoreKey(cur), h)
    ensures forall x :: x in Moved(e, cur, op, items) ==> HeaderAt(e2, StoreKey(Mirror(rel, x)), ForRelatives(h))
    ensures forall g :: IsList(g) && g.core == GROUP_MEMBERS && g != cur ==> Cur(e2, g) == Cur(e, g)
  {
    hide SetOn, Cur, StoreKey, Mirror, ForRelatives, HeaderAt;
    CallAt(e, e2, cur, rel, op, items, kinds, cur, h, track);
    GroupOp(cur, rel, items, kinds);
    assert cur.(op := OpSet) == cur;
    SetHeaders(e, e2, cur, rel, op, items, h, track);
    MovedConform(e, cur, rel, op, items, kinds);
    forall g | IsList(g) && g.core == GROUP_MEMBERS && g != cur ensures Cur(e2, g) == Cur(e, g) {
      CallAt(e, e2, cur, rel, op, items, kinds, g, h, track);
    }
  }

  lemma SetHeaders(e: Recs, e2: Recs, cur: KeySpec, rel: KeySpec, op: KvOp, items: set<string>, h: seq<string>, track: bool)
    requires SetOn(e, e2, cur, rel, op, items, h, true, track) && cur.(op := OpSet) == cur && rel.(op := OpSet) == rel
    ensures HeaderAt(e2, StoreKey(cur), h)
    ensures forall x :: x in Moved(e, cur, op, items) ==> HeaderAt(e2, StoreKey(Mirror(rel, x)), ForRelatives(h))
  {
    hide StoreKey, Cur, HeaderAt, ForRelatives, Ready, Base, Rewritten, FinalSet, PlusSet, MinusSet, KeyPart;
    forall x | x in Moved(e, cur, op, items) ensures HeaderAt(e2, StoreKey(Mirror(rel, x)), ForRelatives(h)) {
      assert Mirror(rel, x).(op := OpSet) == Mirror(rel, x);
      var prefix := ComposeKeyPrefix(cur);
      assert Stepped(e, e2, Mirror(rel, x), OpPlus, {prefix}, ForRelatives(h), track)
          || Stepped(e, e2, Mirror(rel, x), OpMinus, {prefix}, ForRelatives(h), track);
    }
  }

  /** ubr.c _do_sid_ucmd_group_destroy: a group is emptied, unless it has members and the caller does not insist. */
  method GroupDestroy(kvs: KvStore, group: KeySpec, member: KeySpec, header: seq<string>, force: bool,
                      ghost kinds: KeySpec -> KeySpec) returns (r: int)
    requires kvs.rollbackBuf.None? && World(kvs.recs, kinds, true) && |header| == HEADER
    requires GoodCall(group, member, {}, kinds)
    modifies kvs
    ensures kvs.rollbackBuf.None? && World(kvs.recs, kinds, true)
    ensures r == if StoreKey(group) !in old(kvs.recs) then -1
                 else if old(Cur(kvs.recs, group)) != {} && !force then -ENOTEMPTY else 0
    ensures r == 0 ==> Cur(kvs.recs, group) == {} && HeaderAt(kvs.recs, StoreKey(group), header)
    ensures r < 0 ==> kvs.State() == old(kvs.State())
    ensures forall g :: IsList(g) && g.core == GROUP_MEMBERS && g != group ==> Cur(kvs.recs, g) == old(Cur(kvs.recs, g))
    ensures forall sp :: IsList(sp) ==> Base(kvs.recs, sp) == old(Base(kvs.recs, sp))
  {
    hide World, GoodCall, Cur, Base, StoreKey, ComposeKey;
    StoreKeyIsJoin(group);
    GroupOp(group, member, {}, kinds);
    var v := kvs.GetValue(ComposeKey(group));
    if v.None? { return -1; }
    SizeIsEmpty(kvs.recs, group, v.value);
    if |v.value.cells| > HEADER && !force { return -ENOTEMPTY; }
    EmptyAscends();
    assert Data(header) == [];
    r := SetGroup(kvs, group, member, OpSet, header, false, kinds);
  }

  lemma GroupOp(cur: KeySpec, rel: KeySpec, items: set<string>, kinds: KeySpec -> KeySpec)
    requires GoodCall(cur, rel, items, kinds)
    ensures cur.op == OpSet && Canonical(ComposeKey(cur)) == StoreKey(cur)
  {
  }

  lemma SizeIsEmpty(e: Recs, sp: KeySpec, v: Value)
    requires sp.op == OpSet && StoreKey(sp) in e && e[StoreKey(sp)] == v
    ensures |v.cells| > HEADER <==> Cur(e, sp) != {}
  {
    assert sp.(op := OpSet) == sp;
    SomeElem(Data(v.cells));
    EmptyAscends();
  }

  /** ubr.c sid_ucmd_dev_alias_rename: the members of the old alias are added to the new one, and the old one is emptied.
      The members are all under the new alias afterwards, unless a listed alias was renamed to itself. */
  method AliasRename(kvs: KvStore, oldAlias: KeySpec, newAlias: KeySpec, member: KeySpec, header: seq<string>,
                     ghost kinds: KeySpec -> KeySpec) returns (r: int)
    requires kvs.rollbackBuf.None? && World(kvs.recs, kinds, true) && |header| == HEADER
    requires GoodCall(oldAlias, member, {}, kinds) && GoodCall(newAlias, member, {}, kinds)
    modifies kvs
    ensures kvs.rollbackBuf.None? && World(kvs.recs, kinds, true) && r == 0
    ensures old(Cur(kvs.recs, oldAlias)) == {} ==> kvs.State() == old(kvs.State())
    ensures old(Cur(kvs.recs, oldAlias)) != {} ==> Cur(kvs.recs, oldAlias) == {}
    ensures old(Cur(kvs.recs, oldAlias)) != {} && newAlias != oldAlias ==>
      Cur(kvs.recs, newAlias) == old(Cur(kvs.recs, newAlias)) + old(Cur(kvs.recs, oldAlias))
    ensures old(Cur(kvs.recs, oldAlias)) <= Cur(kvs.recs, newAlias) <==>
      newAlias != oldAlias || old(Cur(kvs.recs, oldAlias)) == {}
    ensures forall g :: IsList(g) && g.core == GROUP_MEMBERS && g != oldAlias && g != newAlias ==>
      Cur(kvs.recs, g) == old(Cur(kvs.recs, g))
  {
    hide World, GoodCall, Cur, Base, StoreKey, ComposeKey;
    r := 0;
    StoreKeyIsJoin(oldAlias);
    GroupOp(oldAlias, member, {}, kinds);
    GroupOp(newAlias, member, {}, kinds);
    CallIsGroup(newAlias, member, {}, kinds);
    CallIsGroup(oldAlias, member, {}, kinds);
    MissingIsEmpty(kvs.recs, oldAlias);
    var v := kvs.GetValue(ComposeKey(oldAlias));
    if v.None? { return 0; }
    SizeIsEmpty(kvs.recs, oldAlias, v.value);
    if |v.value.cells| <= HEADER { return 0; }
    var devs := v.value.cells[HEADER..];
    MembersConform(kvs.recs, oldAlias, newAlias, member, devs, kinds);
    r := HandleDevsForGroup(kvs, newAlias, member, header, Some(devs), OpPlus, false, kinds);
    MissingIsEmpty(kvs.recs, oldAlias);
    r := GroupDestroy(kvs, oldAlias, member, header, true, kinds);
  }

  lemma MissingIsEmpty(e: Recs, sp: KeySpec)
    requires sp.op == OpSet
    ensures StoreKey(sp) !in e ==> Cur(e, sp) == {}
  {
    assert sp.(op := OpSet) == sp;
    EmptyAscends();
  }

  /** Members of one group may be members of another of the same kind. */
  lemma MembersConform(e: Recs, g: KeySpec, h: KeySpec, member: KeySpec, devs: seq<string>, kinds: KeySpec -> KeySpec)
    requires World(e, kinds, true) && GoodCall(g, member, {}, kinds) && GoodCall(h, member, {}, kinds)
    requires StoreKey(g) in e && |e[StoreKey(g)].cells| > HEADER && devs == e[StoreKey(g)].cells[HEADER..]
    ensures Ascending(devs) && GoodCall(h, member, Elems(devs), kinds) && Elems(devs) == Cur(e, g)
  {
    assert g.(op := OpSet) == g;
    assert Ready(e, g, true);
    assert devs == Data(CellsAt(e, KeyOf(g, OpSet)));
    forall x | x in Elems(devs) ensures Conforms(member, x) { SameKindConforms(member, kinds(g), x); }
  }

  lemma EmptyWorld(e: Recs, kinds: KeySpec -> KeySpec)
    requires e == map[]
    ensures World(e, kinds, true) && forall sp :: Cur(e, sp) == {}
  {
    hide KeyOf;
    EmptyAscends();
  }

  /** An alias of module `part` with its only member, the device `dev`. */
  function AliasOf(part: string, category: string, name: string): KeySpec {
    KeySpec(OpSet, "ALS", NsMod, part, category, name, GROUP_MEMBERS)
  }

  function DeviceIn(dev: string): KeySpec {
    KeySpec(OpSet, "", NsDev, dev, "", "", GROUP_IN)
  }

  /** The records of an alias and of a device, letter by letter. */
  lemma AliasKeys()
    ensures StoreKey(AliasOf("dm", "name", "root")) == ":ALS:M:dm:name:root:#GMB"
    ensures StoreKey(DeviceIn("8_0")) == "::D:8_0:::#GIN"
  {
    hide StoreKey;
    StoredAs(AliasOf("dm", "name", "root"));
    StoredAs(DeviceIn("8_0"));
  }

  lemma AliasCall(part: string, category: string, name: string, dev: string, items: set<string>,
                  kinds: KeySpec -> KeySpec)
    requires kinds(AliasOf(part, category, name)) == DeviceIn(dev)
    requires Bare(part) && Bare(category) && Bare(dev) && items <= {ComposeKeyPrefix(DeviceIn(dev))}
    ensures GoodCall(AliasOf(part, category, name), DeviceIn(dev), items, kinds)
  {
    hide ComposeKeyPrefix;
    ConformsIff(DeviceIn(dev), DeviceIn(dev));
  }

  /** The input on which a rename loses members: a device takes an alias of any name, and the alias is renamed to itself. */
  method RenameToItself(part: string, category: string, name: string, dev: string, header: seq<string>)
    returns (kvs: KvStore, ghost before: Recs)
    requires Bare(part) && Bare(category) && Bare(dev) && |header| == HEADER
    ensures Cur(before, AliasOf(part, category, name)) == {ComposeKeyPrefix(DeviceIn(dev))}
    ensures Cur(kvs.recs, AliasOf(part, category, name)) == {}
  {
    hide World, GoodCall, Cur, AliasOf, DeviceIn, ComposeKeyPrefix;
    ghost var kinds := (g: KeySpec) => DeviceIn(dev);
    var alias, member := AliasOf(part, category, name), DeviceIn(dev);
    AliasCall(part, category, name, dev, {}, kinds);
    AliasCall(part, category, name, dev, {ComposeKeyPrefix(member)}, kinds);
    kvs := new KvStore();
    EmptyWorld(kvs.recs, kinds);
    assert Elems(Given(member, None)) == {ComposeKeyPrefix(member)};
    var r := HandleDevsForGroup(kvs, alias, member, header, None, OpPlus, false, kinds);
    before := kvs.recs;
    assert Cur(before, alias) == {ComposeKeyPrefix(member)};
    r := AliasRename(kvs, alias, alias, member, header, kinds);
  }
}
