/** Composition of record keys from their parts, and taking parts out of a composed key. */
module Keys {
  import opened BPTypes
  import opened CStrings

  datatype KvOp = OpSet | OpPlus | OpMinus
  datatype Ns = NsUndefined | NsUdev | NsDev | NsMod | NsDevmod | NsGlob

  /** A key specification; a missing part is the empty string. */
  datatype KeySpec = KeySpec(op: KvOp, dom: string, ns: Ns, nsPart: string, idCat: string, id: string, core: string)

  const JOIN := ':'
  const PART_OP := 0
  const PART_NS_PART := 3
  const PART_ID := 5
  const PART_COUNT := 7

  function OpPrefix(op: KvOp): (r: string)
    ensures r == [] || !IsSpace(r[0])
  {
    match op
    case OpSet => ""
    case OpPlus => "+"
    case OpMinus => "-"
  }

  function NsPrefix(ns: Ns): string {
    match ns
    case NsUndefined => ""
    case NsUdev => "U"
    case NsDev => "D"
    case NsMod => "M"
    case NsDevmod => "X"
    case NsGlob => "G"
  }

  function Parts(s: KeySpec, core: string): (r: seq<string>)
    ensures |r| == PART_COUNT
  {
    [OpPrefix(s.op), s.dom, NsPrefix(s.ns), s.nsPart, s.idCat, s.id, core]
  }

  function Join(parts: seq<string>): string {
    if parts == [] then [] else if |parts| == 1 then parts[0] else parts[0] + [JOIN] + Join(parts[1..])
  }

  /** ubr.c _compose_key: the key starts with a blank kept for an extra operation character. */
  function ComposeKey(s: KeySpec): string {
    " " + Join(Parts(s, s.core))
  }

  /** ubr.c _compose_key_prefix: no blank and no core, but the separator before the core stays. */
  function ComposeKeyPrefix(s: KeySpec): string {
    Join(Parts(s, ""))
  }

  /** The key a record composed from `s` has in the store, which drops leading blanks. */
  function StoreKey(s: KeySpec): string {
    Canonical(ComposeKey(s))
  }

  predicate Bare(part: string) {
    JOIN !in part
  }

  /** Every part but the identifier is free of the separator. Identifiers come from outside: an alias can be any name. */
  predicate Clean(s: KeySpec) {
    Bare(s.dom) && Bare(s.nsPart) && Bare(s.idCat) && Bare(s.core)
  }

  ghost predicate BareButLast(parts: seq<string>) {
    forall i :: 0 <= i < |parts| - 1 ==> Bare(parts[i])
  }

  /** strstr(s, ":") as the number of characters before the separator; |s| when there is none. */
  function Cut(s: string): (n: nat)
    ensures n <= |s| && Bare(s[..n]) && (n < |s| ==> s[n] == JOIN)
  {
    if s == [] || s[0] == JOIN then 0
    else
      assert s[..1 + Cut(s[1..])] == [s[0]] + s[1..][..Cut(s[1..])];
      1 + Cut(s[1..])
  }

  lemma {:induction false} CutJoin(a: string, rest: string)
    ensures Cut(a + [JOIN] + rest) == Cut(a)
    ensures Bare(a) <==> Cut(a) == |a|
    ensures Bare(a) <==> a[..Cut(a)] == a
  {
    if a != [] {
      assert (a + [JOIN] + rest)[1..] == a[1..] + [JOIN] + rest;
      CutJoin(a[1..], rest);
      assert a == [a[0]] + a[1..];
      assert Bare(a) <==> a[0] != JOIN && Bare(a[1..]);
    }
    assert a[..|a|] == a;
  }

  /** Part `n` of a key with `count` parts: the last part runs to the end, the others to a separator that must be there. */
  function KeyPart(key: string, n: nat, count: nat): Option<string> {
    if n == 0 then
      if count == 1 then Some(key)
      else if Cut(key) == |key| then None else Some(key[..Cut(key)])
    else if Cut(key) == |key| || count == 0 then None
    else KeyPart(key[Cut(key) + 1..], n - 1, count - 1)
  }

  /** ubr.c _get_key_part */
  method GetKeyPart(key: string, req: nat) returns (r: Option<string>)
    requires req < PART_COUNT
    ensures r == KeyPart(key, req, PART_COUNT)
  {
    var start := key;
    var part := 0;
    while part < req
      invariant part <= req
      invariant KeyPart(key, req, PART_COUNT) == KeyPart(start, req - part, PART_COUNT - part)
    {
      var end := Cut(start);
      if end == |start| { return None; }
      start := start[end + 1..];
      part := part + 1;
    }
    if req == PART_COUNT - 1 { return Some(start); }
    var end := Cut(start);
    if end == |start| { return None; }
    return Some(start[..end]);
  }

  lemma KeyPartStep(a: string, rest: string, n: nat, count: nat)
    requires count > 1 && (n > 0 ==> Bare(a))
    ensures KeyPart(a + [JOIN] + rest, n, count) == if n == 0 then Some(a[..Cut(a)]) else KeyPart(rest, n - 1, count - 1)
  {
    var key := a + [JOIN] + rest;
    CutJoin(a, rest);
    assert key[..Cut(a)] == a[..Cut(a)];
    assert key[|a| + 1..] == rest;
  }

  /** Taking a part out of a joined key gives the part that was put in up to its first separator, if the parts before it have
      none; the last part comes back whole. */
  lemma {:induction false} KeyPartOfJoin(parts: seq<string>, n: nat)
    requires n < |parts| && forall i :: 0 <= i < n ==> Bare(parts[i])
    ensures KeyPart(Join(parts), n, |parts|) == Some(if n + 1 < |parts| then parts[n][..Cut(parts[n])] else parts[n])
  {
    hide KeyPart;
    if |parts| == 1 {
      OnlyPart(parts[0]);
    } else {
      JoinStep(parts);
      hide Join, Cut, Bare;
      KeyPartStep(parts[0], Join(parts[1..]), n, |parts|);
      if n > 0 {
        KeyPartOfJoin(parts[1..], n - 1);
        assert parts[1..][n - 1] == parts[n];
      }
    }
  }

  lemma OnlyPart(key: string)
    ensures KeyPart(key, 0, 1) == Some(key)
  {
  }

  lemma JoinStep(parts: seq<string>)
    requires |parts| > 1
    ensures Join(parts) == parts[0] + [JOIN] + Join(parts[1..])
  {
  }

  /** All parts come back if and only if every part but the last is free of the separator. */
  lemma {:induction false} AllPartsBackIff(parts: seq<string>)
    ensures (forall n :: 0 <= n < |parts| ==> KeyPart(Join(parts), n, |parts|) == Some(parts[n])) <==> BareButLast(parts)
  {
    hide KeyPart, Join;
    if BareButLast(parts) {
      forall n | 0 <= n < |parts| ensures KeyPart(Join(parts), n, |parts|) == Some(parts[n]) {
        KeyPartOfJoin(parts, n);
        CutJoin(parts[n], "");
      }
    } else {
      var n := FirstUnbare(parts);
      KeyPartOfJoin(parts, n);
      CutJoin(parts[n], "");
    }
  }

  lemma FirstUnbare(parts: seq<string>) returns (n: nat)
    requires !BareButLast(parts)
    ensures n + 1 < |parts| && !Bare(parts[n]) && forall i :: 0 <= i < n ==> Bare(parts[i])
  {
    n := 0;
    while Bare(parts[n])
      invariant n + 1 < |parts| && forall i :: 0 <= i < n ==> Bare(parts[i])
      decreases |parts| - n
    {
      n := n + 1;
    }
  }

  /** ubr.c _copy_ns_part_from_key and _copy_id_from_key on a composed prefix: the device part comes back, and the identifier
      comes back up to its first separator, so all of it if and only if it has none. */
  lemma PrefixParts(s: KeySpec)
    requires Clean(s)
    ensures KeyPart(ComposeKeyPrefix(s), PART_NS_PART, PART_COUNT) == Some(s.nsPart)
    ensures KeyPart(ComposeKeyPrefix(s), PART_ID, PART_COUNT) == Some(s.id[..Cut(s.id)])
    ensures s.id[..Cut(s.id)] == s.id <==> Bare(s.id)
  {
    hide KeyPart, Join, Cut;
    KeyPartOfJoin(Parts(s, ""), PART_NS_PART);
    KeyPartOfJoin(Parts(s, ""), PART_ID);
    CutJoin(s.nsPart, "");
    CutJoin(s.id, "");
  }

  lemma StoreKeyIsJoin(s: KeySpec)
    ensures StoreKey(s) == Join(Parts(s, s.core))
    ensures StoreKey(s) != [] && ComposeKey(s) != []
  {
    var rest := Join(Parts(s, s.core));
    var p := Parts(s, s.core);
    assert rest == p[0] + [JOIN] + Join(p[1..]);
    assert (" " + rest)[1..] == rest && (" " + rest)[0] == ' ';
    assert rest[0] == JOIN || rest[0] == p[0][0];
    assert Canonical(" " + rest) == Canonical(rest);
  }

  /** The format of a key, part by part: operation, domain, namespace, device or module, category, identifier, core. */
  lemma KeyFormat(s: KeySpec, core: string)
    ensures Join(Parts(s, core)) ==
            OpPrefix(s.op) + ":" + s.dom + ":" + NsPrefix(s.ns) + ":" + s.nsPart + ":" + s.idCat + ":" + s.id + ":" + core
  {
    hide OpPrefix, NsPrefix;
    JoinIsHead(s, core);
    var p := s.id + [JOIN] + core;
    assert Head(s, p) == OpPrefix(s.op) + ":" + s.dom + ":" + NsPrefix(s.ns) + ":" + s.nsPart + ":" + s.idCat + ":" + p;
  }

  /** Keys as they are in the store: an alias with its members, and the groups added to a device. */
  lemma ListKeys()
    ensures StoreKey(KeySpec(OpSet, "ALS", NsMod, "dm", "name", "root", "#GMB")) == ":ALS:M:dm:name:root:#GMB"
    ensures StoreKey(KeySpec(OpPlus, "", NsDev, "8_0", "", "", "#GIN")) == "+::D:8_0:::#GIN"
  {
    hide StoreKey;
    StoredAs(KeySpec(OpSet, "ALS", NsMod, "dm", "name", "root", "#GMB"));
    StoredAs(KeySpec(OpPlus, "", NsDev, "8_0", "", "", "#GIN"));
  }

  /** Keys of the other namespaces. */
  lemma OtherKeys()
    ensures StoreKey(KeySpec(OpMinus, "", NsUdev, "1", "", "", "c")) == "-::U:1:::c"
    ensures StoreKey(KeySpec(OpSet, "", NsDevmod, "1", "", "", "c")) == "::X:1:::c"
    ensures StoreKey(KeySpec(OpSet, "", NsGlob, "", "", "", "c")) == "::G::::c"
    ensures StoreKey(KeySpec(OpSet, "", NsUndefined, "", "", "", "c")) == "::::::c"
  {
    hide StoreKey;
    StoredAs(KeySpec(OpMinus, "", NsUdev, "1", "", "", "c"));
    StoredAs(KeySpec(OpSet, "", NsDevmod, "1", "", "", "c"));
    StoredAs(KeySpec(OpSet, "", NsGlob, "", "", "", "c"));
    StoredAs(KeySpec(OpSet, "", NsUndefined, "", "", "", "c"));
  }

  lemma StoredAs(s: KeySpec)
    ensures StoreKey(s) == OpPrefix(s.op) + ":" + s.dom + ":" + NsPrefix(s.ns) + ":" + s.nsPart + ":" + s.idCat + ":" + s.id + ":" + s.core
  {
    hide *;
    StoreKeyIsJoin(s);
    KeyFormat(s, s.core);
  }

  // ----- Keys that tell their specifications apart -----

  /** The first part of two equal keys. */
  lemma SameHead(a: string, r1: string, b: string, r2: string)
    requires Bare(a) && Bare(b) && a + [JOIN] + r1 == b + [JOIN] + r2
    ensures a == b && r1 == r2
  {
    CutJoin(a, r1);
    CutJoin(b, r2);
    assert (a + [JOIN] + r1)[..|a|] == a && (b + [JOIN] + r2)[..|b|] == b;
    assert (a + [JOIN] + r1)[|a| + 1..] == r1 && (b + [JOIN] + r2)[|b| + 1..] == r2;
  }

  lemma LastSeparator(r: string, t: string)
    requires Bare(t)
    ensures (r + [JOIN] + t)[|r|] == JOIN
    ensures forall k :: |r| < k <= |r| + |t| ==> (r + [JOIN] + t)[k] != JOIN
  {
    forall k | |r| < k <= |r| + |t| ensures (r + [JOIN] + t)[k] != JOIN { assert (r + [JOIN] + t)[k] == t[k - |r| - 1]; }
  }

  /** The last part of two equal keys. */
  lemma SameTail(r1: string, a: string, r2: string, b: string)
    requires Bare(a) && Bare(b) && r1 + [JOIN] + a == r2 + [JOIN] + b
    ensures r1 == r2 && a == b
  {
    var s, t := r1 + [JOIN] + a, r2 + [JOIN] + b;
    LastSeparator(r1, a);
    LastSeparator(r2, b);
    assert s[..|r1|] == r1 && t[..|r2|] == r2 && s[|r1| + 1..] == a && t[|r2| + 1..] == b;
  }

  /** A key without its core: the parts up to the identifier category, and what follows them. */
  function Head(s: KeySpec, rest: string): string {
    OpPrefix(s.op) + [JOIN] + (s.dom + [JOIN] + (NsPrefix(s.ns) + [JOIN] + (s.nsPart + [JOIN] + (s.idCat + [JOIN] + rest))))
  }

  lemma JoinIsHead(s: KeySpec, core: string)
    ensures Join(Parts(s, core)) == Head(s, s.id + [JOIN] + core)
  {
    var p := Parts(s, core);
    assert Join(p[6..]) == core;
    assert Join(p[5..]) == p[5] + [JOIN] + Join(p[5..][1..]) && p[5..][1..] == p[6..];
    assert Join(p[4..]) == p[4] + [JOIN] + Join(p[4..][1..]) && p[4..][1..] == p[5..];
    assert Join(p[3..]) == p[3] + [JOIN] + Join(p[3..][1..]) && p[3..][1..] == p[4..];
    assert Join(p[2..]) == p[2] + [JOIN] + Join(p[2..][1..]) && p[2..][1..] == p[3..];
    assert Join(p[1..]) == p[1] + [JOIN] + Join(p[1..][1..]) && p[1..][1..] == p[2..];
    assert Join(p) == p[0] + [JOIN] + Join(p[1..]);
  }

  lemma PrefixesBare(op: KvOp, ns: Ns)
    ensures Bare(OpPrefix(op)) && Bare(NsPrefix(ns))
  {
  }

  lemma NsPrefixInjective(a: Ns, b: Ns)
    requires NsPrefix(a) == NsPrefix(b)
    ensures a == b
  {
    if !a.NsUndefined? && !b.NsUndefined? { assert NsPrefix(a)[0] == NsPrefix(b)[0]; } else { assert |NsPrefix(a)| == |NsPrefix(b)|; }
  }

  lemma SameHeads(a: KeySpec, r1: string, b: KeySpec, r2: string)
    requires Clean(a) && Clean(b) && Head(a, r1) == Head(b, r2)
    ensures a.op == b.op && a.dom == b.dom && a.ns == b.ns && a.nsPart == b.nsPart && a.idCat == b.idCat && r1 == r2
  {
    hide Bare, OpPrefix, NsPrefix;
    PrefixesBare(a.op, a.ns);
    PrefixesBare(b.op, b.ns);
    var a4, b4 := a.idCat + [JOIN] + r1, b.idCat + [JOIN] + r2;
    var a3, b3 := a.nsPart + [JOIN] + a4, b.nsPart + [JOIN] + b4;
    var a2, b2 := NsPrefix(a.ns) + [JOIN] + a3, NsPrefix(b.ns) + [JOIN] + b3;
    SameHead(OpPrefix(a.op), a.dom + [JOIN] + a2, OpPrefix(b.op), b.dom + [JOIN] + b2);
    SameHead(a.dom, a2, b.dom, b2);
    SameHead(NsPrefix(a.ns), a3, NsPrefix(b.ns), b3);
    SameHead(a.nsPart, a4, b.nsPart, b4);
    SameHead(a.idCat, r1, b.idCat, r2);
    OpPrefixInjective(a.op, b.op);
    NsPrefixInjective(a.ns, b.ns);
  }

  /** Different clean specifications never share a record, whatever their identifiers. */
  lemma StoreKeyInjective(a: KeySpec, b: KeySpec)
    requires Clean(a) && Clean(b) && StoreKey(a) == StoreKey(b)
    ensures a == b
  {
    hide Bare, Join, Head, StoreKey;
    StoreKeyIsJoin(a);
    StoreKeyIsJoin(b);
    JoinIsHead(a, a.core);
    JoinIsHead(b, b.core);
    SameHeads(a, a.id + [JOIN] + a.core, b, b.id + [JOIN] + b.core);
    SameTail(a.id, a.core, b.id, b.core);
  }

  lemma OpPrefixInjective(a: KvOp, b: KvOp)
    requires OpPrefix(a) == OpPrefix(b)
    ensures a == b
  {
    assert |OpPrefix(a)| == |OpPrefix(b)|;
    if !a.OpSet? { assert OpPrefix(a)[0] == OpPrefix(b)[0]; }
  }

  /** Different clean specifications never share an item. */
  lemma PrefixInjective(a: KeySpec, b: KeySpec)
    requires Clean(a) && Clean(b) && ComposeKeyPrefix(a) == ComposeKeyPrefix(b)
    ensures a == b.(core := a.core)
  {
    hide Join, Head;
    JoinIsHead(a, "");
    JoinIsHead(b, "");
    SameHeads(a, a.id + [JOIN] + "", b, b.id + [JOIN] + "");
    SameTail(a.id, "", b.id, "");
  }

  // ----- Keys that do not -----

  /** The part of a string after its last separator. */
  lemma {:induction false} LastCut(s: string) returns (r: string, t: string)
    requires !Bare(s)
    ensures s == r + [JOIN] + t && Bare(t)
  {
    if Bare(s[1..]) {
      r, t := [], s[1..];
      assert s == [s[0]] + s[1..];
    } else {
      var r1, t1 := LastCut(s[1..]);
      r, t := [s[0]] + r1, t1;
      assert s == [s[0]] + s[1..];
    }
  }

  lemma FirstCut(s: string) returns (r: string, t: string)
    requires !Bare(s)
    ensures s == r + [JOIN] + t && Bare(r)
  {
    r, t := s[..Cut(s)], s[Cut(s) + 1..];
  }

  /** A key can always be read as one of a clean specification: separators in the device part, the category or the core
      become separators in the identifier. */
  lemma ReadClean(a: KeySpec) returns (b: KeySpec)
    requires Bare(a.dom)
    ensures Clean(b) && StoreKey(b) == StoreKey(a)
    ensures Clean(a) ==> b == a
  {
    hide Join, Head, StoreKey;
    b := a;
    if !Bare(b.nsPart) {
      var r, t := FirstCut(b.nsPart);
      assert b.nsPart + [JOIN] + b.idCat == r + [JOIN] + (t + [JOIN] + b.idCat);
      ShiftPart(b, r, t);
      b := b.(nsPart := r, idCat := t + [JOIN] + b.idCat);
    }
    if !Bare(b.idCat) {
      var r, t := FirstCut(b.idCat);
      ShiftCategory(b, r, t);
      b := b.(idCat := r, id := t + [JOIN] + b.id);
    }
    if !Bare(b.core) {
      var r, t := LastCut(b.core);
      ShiftCore(b, r, t);
      b := b.(id := b.id + [JOIN] + r, core := t);
    }
  }

  lemma ShiftPart(a: KeySpec, r: string, t: string)
    requires a.nsPart == r + [JOIN] + t
    ensures StoreKey(a.(nsPart := r, idCat := t + [JOIN] + a.idCat)) == StoreKey(a)
  {
    hide Join, StoreKey;
    var b := a.(nsPart := r, idCat := t + [JOIN] + a.idCat);
    StoreKeyIsJoin(a);
    StoreKeyIsJoin(b);
    JoinIsHead(a, a.core);
    JoinIsHead(b, b.core);
    var rest := a.id + [JOIN] + a.core;
    assert a.nsPart + [JOIN] + (a.idCat + [JOIN] + rest) == b.nsPart + [JOIN] + (b.idCat + [JOIN] + rest);
  }

  lemma ShiftCategory(a: KeySpec, r: string, t: string)
    requires a.idCat == r + [JOIN] + t
    ensures StoreKey(a.(idCat := r, id := t + [JOIN] + a.id)) == StoreKey(a)
  {
    hide Join, StoreKey;
    var b := a.(idCat := r, id := t + [JOIN] + a.id);
    StoreKeyIsJoin(a);
    StoreKeyIsJoin(b);
    JoinIsHead(a, a.core);
    JoinIsHead(b, b.core);
    assert a.idCat + [JOIN] + (a.id + [JOIN] + a.core) == b.idCat + [JOIN] + (b.id + [JOIN] + b.core);
  }

  lemma ShiftCore(a: KeySpec, r: string, t: string)
    requires a.core == r + [JOIN] + t
    ensures StoreKey(a.(id := a.id + [JOIN] + r, core := t)) == StoreKey(a)
  {
    hide Join, StoreKey;
    var b := a.(id := a.id + [JOIN] + r, core := t);
    StoreKeyIsJoin(a);
    StoreKeyIsJoin(b);
    JoinIsHead(a, a.core);
    JoinIsHead(b, b.core);
    assert a.id + [JOIN] + a.core == b.id + [JOIN] + b.core;
  }

  /** A specification shares its record with another, clean one if and only if it is not clean itself: a separator in its
      device part, its category or its core is read as one in the identifier. Domains are constants of the program. */
  lemma SharesIff(a: KeySpec)
    requires Bare(a.dom)
    ensures (exists b :: Clean(b) && b != a && StoreKey(b) == StoreKey(a)) <==> !Clean(a)
  {
    hide StoreKey;
    if Clean(a) {
      forall b | Clean(b) && StoreKey(b) == StoreKey(a) ensures b == a { StoreKeyInjective(a, b); }
    } else {
      var b := ReadClean(a);
      assert Clean(b) && b != a;
    }
  }

  /** The smallest collision: the separator belongs to the category of one specification and to the identifier of the other. */
  lemma CategoriesCollide()
    ensures var a := KeySpec(OpSet, "ALS", NsMod, "m", "a", "b:c", "#GMB");
            var b := KeySpec(OpSet, "ALS", NsMod, "m", "a:b", "c", "#GMB");
      a != b && StoreKey(a) == StoreKey(b)
  {
    var b := KeySpec(OpSet, "ALS", NsMod, "m", "a:b", "c", "#GMB");
    assert "a:b" == "a" + [JOIN] + "b" && "b:c" == "b" + [JOIN] + "c";
    ShiftCategory(b, "a", "b");
  }
}
