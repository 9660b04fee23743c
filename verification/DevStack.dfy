/** The device stack: following the immediate dependencies of a device to all devices below it, or to the last ones. */
module DevStack {
  import opened BPTypes

  type Dev = string

  /** The immediate dependencies of a device, or the error of looking them up. */
  datatype Lookup = Deps(devs: seq<Dev>) | Failure

  type Graph = Dev -> Lookup

  /** SEARCH_IMM_*, SEARCH_ANC or SEARCH_DESC, SEARCH_BASE or SEARCH_TOP; the direction is the graph's. */
  datatype Search = Immediate | All | Ends

  predicate Edge(g: Graph, a: Dev, b: Dev) {
    g(a).Deps? && b in g(a).devs
  }

  ghost predicate Path(g: Graph, p: seq<Dev>) {
    |p| >= 2 && forall i :: 0 <= i < |p| - 1 ==> Edge(g, p[i], p[i + 1])
  }

  /** `b` is one or more steps away from `a`. */
  ghost predicate Reaches(g: Graph, a: Dev, b: Dev) {
    exists p :: Path(g, p) && p[0] == a && p[|p| - 1] == b
  }

  predicate HasNoDeps(g: Graph, a: Dev) {
    g(a).Deps? && g(a).devs == []
  }

  /** Every step goes down in rank, so there are no cycles. */
  ghost predicate Ranked(g: Graph, rank: Dev -> nat) {
    forall a, b :: Edge(g, a, b) ==> rank(b) < rank(a)
  }

  /** No lookup from `a` on fails. */
  ghost predicate Sound(g: Graph, a: Dev) {
    g(a).Deps? && forall b :: Reaches(g, a, b) ==> g(b).Deps?
  }

  lemma OneStep(g: Graph, a: Dev, b: Dev)
    requires Edge(g, a, b)
    ensures Reaches(g, a, b)
  {
    assert Path(g, [a, b]);
  }

  /** Reaching is a step, or a step and reaching. */
  lemma ReachesByStep(g: Graph, a: Dev, b: Dev)
    ensures Reaches(g, a, b) <==> Edge(g, a, b) || exists c :: Edge(g, a, c) && Reaches(g, c, b)
  {
    if Edge(g, a, b) { OneStep(g, a, b); }
    if c :| Edge(g, a, c) && Reaches(g, c, b) {
      var p :| Path(g, p) && p[0] == c && p[|p| - 1] == b;
      var q := [a] + p;
      forall i | 0 <= i < |q| - 1 ensures Edge(g, q[i], q[i + 1]) {
        if i > 0 { assert Edge(g, p[i - 1], p[i - 1 + 1]); }
      }
      assert Path(g, q);
    }
    if Reaches(g, a, b) && !Edge(g, a, b) {
      var p :| Path(g, p) && p[0] == a && p[|p| - 1] == b;
      assert Edge(g, p[0], p[0 + 1]);
      var q := p[1..];
      assert |q| >= 2;
      forall i | 0 <= i < |q| - 1 ensures Edge(g, q[i], q[i + 1]) { assert Edge(g, p[i + 1], p[i + 1 + 1]); }
      assert Path(g, q) && q[0] == p[1] && q[|q| - 1] == b;
      assert Reaches(g, p[1], b);
    }
  }

  /** What a search returns: the devices it is for. */
  ghost predicate Wanted(g: Graph, a: Dev, how: Search, b: Dev) {
    match how
    case Immediate => Edge(g, a, b)
    case All => Reaches(g, a, b)
    case Ends => Reaches(g, a, b) && HasNoDeps(g, b)
  }

  ghost function Items(list: Option<seq<Dev>>): seq<Dev> {
    if list.Some? then list.value else []
  }

  lemma SoundByStep(g: Graph, a: Dev)
    ensures Sound(g, a) <==> g(a).Deps? && forall b :: Edge(g, a, b) ==> Sound(g, b)
  {
    if Sound(g, a) {
      forall b | Edge(g, a, b) ensures Sound(g, b) {
        OneStep(g, a, b);
        forall c | Reaches(g, b, c) ensures g(c).Deps? { ReachesByStep(g, a, c); }
      }
    }
    if g(a).Deps? && forall b :: Edge(g, a, b) ==> Sound(g, b) {
      forall c | Reaches(g, a, c) ensures g(c).Deps? { ReachesByStep(g, a, c); }
    }
  }

  /** A search for all, or for the last ones, looks at every dependency in turn. */
  ghost predicate WantedVia(g: Graph, devs: seq<Dev>, n: nat, how: Search, b: Dev)
    requires n <= |devs|
  {
    exists i :: 0 <= i < n && (Wanted(g, devs[i], how, b) || (how.Ends? && b == devs[i] && HasNoDeps(g, b)))
  }

  lemma WantedByStep(g: Graph, a: Dev, how: Search, b: Dev)
    requires g(a).Deps? && !how.Immediate?
    ensures Wanted(g, a, how, b) <==> (how.All? && b in g(a).devs) || WantedVia(g, g(a).devs, |g(a).devs|, how, b)
  {
    var devs := g(a).devs;
    ReachesByStep(g, a, b);
    if c :| Edge(g, a, c) && Reaches(g, c, b) {
      var i :| 0 <= i < |devs| && devs[i] == c;
      assert Wanted(g, devs[i], All, b);
      assert HasNoDeps(g, b) ==> Wanted(g, devs[i], Ends, b);
    }
    if Edge(g, a, b) && HasNoDeps(g, b) {
      var i :| 0 <= i < |devs| && devs[i] == b;
    }
    if WantedVia(g, devs, |devs|, how, b) {
      var i :| 0 <= i < |devs| && (Wanted(g, devs[i], how, b) || (how.Ends? && b == devs[i] && HasNoDeps(g, b)));
      assert Edge(g, a, devs[i]);
    }
  }

  /** What a list must be: exactly the wanted devices, and missing only when there are no dependencies at all. */
  ghost predicate Answers(g: Graph, a: Dev, how: Search, list: Option<seq<Dev>>) {
    && g(a).Deps? && (list.None? <==> g(a).devs == []) && (list.Some? ==> list.value != [])
    && forall b :: b in Items(list) <==> Wanted(g, a, how, b)
  }

  /** The list a search returns, with order and repetitions: the dependencies themselves, all of them and then those of each in
      turn, or for each in turn its last ones. A device is listed once for every way that leads to it. */
  ghost function ListOf(g: Graph, a: Dev, how: Search, rank: Dev -> nat): seq<Dev>
    requires Ranked(g, rank)
    decreases rank(a), 1
  {
    if g(a).Failure? then []
    else if how.Immediate? then g(a).devs
    else (if how.All? then g(a).devs else []) + ListVia(g, a, |g(a).devs|, how, rank)
  }

  ghost function ListVia(g: Graph, a: Dev, n: nat, how: Search, rank: Dev -> nat): seq<Dev>
    requires Ranked(g, rank) && g(a).Deps? && n <= |g(a).devs|
    decreases rank(a), 0, n
  {
    if n == 0 then []
    else
      var b := g(a).devs[n - 1];
      assert Edge(g, a, b);
      ListVia(g, a, n - 1, how, rank) + if how.Ends? && HasNoDeps(g, b) then [b] else ListOf(g, b, how, rank)
  }

  lemma NoneWanted(g: Graph, a: Dev, how: Search)
    requires HasNoDeps(g, a)
    ensures Answers(g, a, how, None)
  {
    forall b ensures !Wanted(g, a, how, b) { ReachesByStep(g, a, b); }
  }

  /** ubr.c _do_sid_ucmd_dev_stack_get: it ends on every graph without cycles, fails exactly when a lookup it needs fails,
      and otherwise returns exactly the wanted devices. */
  method StackGet(g: Graph, dev: Dev, how: Search, ghost rank: Dev -> nat) returns (r: int, list: Option<seq<Dev>>)
    requires Ranked(g, rank)
    ensures r == if (if how.Immediate? then g(dev).Deps? else Sound(g, dev)) then 0 else -1
    ensures r == 0 ==> Answers(g, dev, how, list)
    ensures r == 0 ==> Items(list) == ListOf(g, dev, how, rank)
    ensures r < 0 ==> list == None
    decreases rank(dev)
  {
    hide *;
    NotSound(g, dev);
    if g(dev).Failure? { return -1, None; }
    var strv := g(dev).devs;
    ListIs(g, dev, how, rank);
    if strv == [] {
      NoneWanted(g, dev, how);
      AllSound(g, dev);
      return 0, None;
    }
    if how.Immediate? {
      ImmediateAnswers(g, dev);
      return 0, Some(strv);
    }
    var merged := if how.All? then strv else [];
    ViaStart(g, strv, how);
    for i := 0 to |strv|
      invariant forall b :: b in merged <==> (how.All? && b in strv) || WantedVia(g, strv, i, how, b)
      invariant forall j :: 0 <= j < i ==> Sound(g, strv[j])
      invariant how.All? || i > 0 ==> merged != []
      invariant merged == (if how.All? then strv else []) + ListVia(g, dev, i, how, rank)
    {
      StepDown(g, dev, i, rank);
      var r2, strv2 := StackGet(g, strv[i], how, rank);
      if r2 < 0 { return -1, None; }
      ViaNext(g, strv, i, how, strv2);
      ViaIs(g, dev, i, how, rank, strv2);
      merged := merged + if how.Ends? && strv2.None? then [strv[i]] else if strv2.Some? then strv2.value else [];
    }
    AllSound(g, dev);
    MergedAnswers(g, dev, how, merged);
    return 0, Some(merged);
  }

  /** What one dependency contributes: its own answer, or itself when it is a last one. */
  ghost function AnswerOf(dev: Dev, how: Search, list: Option<seq<Dev>>): seq<Dev> {
    if how.Ends? && list.None? then [dev] else Items(list)
  }

  lemma ListIs(g: Graph, a: Dev, how: Search, rank: Dev -> nat)
    requires Ranked(g, rank) && g(a).Deps?
    ensures how.Immediate? ==> ListOf(g, a, how, rank) == g(a).devs
    ensures !how.Immediate? ==>
      ListOf(g, a, how, rank) == (if how.All? then g(a).devs else []) + ListVia(g, a, |g(a).devs|, how, rank)
    ensures ListVia(g, a, 0, how, rank) == []
    ensures forall list: Option<seq<Dev>> :: Items(list) == if list.Some? then list.value else []
  {
  }

  lemma ViaIs(g: Graph, a: Dev, i: nat, how: Search, rank: Dev -> nat, list: Option<seq<Dev>>)
    requires Ranked(g, rank) && g(a).Deps? && i < |g(a).devs| && !how.Immediate?
    requires Answers(g, g(a).devs[i], how, list) && Items(list) == ListOf(g, g(a).devs[i], how, rank)
    ensures ListVia(g, a, i + 1, how, rank) == ListVia(g, a, i, how, rank) + AnswerOf(g(a).devs[i], how, list)
    ensures AnswerOf(g(a).devs[i], how, list) ==
            if how.Ends? && list.None? then [g(a).devs[i]] else if list.Some? then list.value else []
  {
    hide Wanted;
  }

  lemma NotSound(g: Graph, a: Dev)
    ensures g(a).Failure? ==> !Sound(g, a)
  {
  }

  lemma AllSound(g: Graph, a: Dev)
    requires g(a).Deps? && forall j :: 0 <= j < |g(a).devs| ==> Sound(g, g(a).devs[j])
    ensures Sound(g, a)
  {
    hide Sound;
    SoundByStep(g, a);
  }

  lemma StepDown(g: Graph, a: Dev, i: nat, rank: Dev -> nat)
    requires Ranked(g, rank) && g(a).Deps? && i < |g(a).devs|
    ensures rank(g(a).devs[i]) < rank(a)
    ensures !Sound(g, g(a).devs[i]) ==> !Sound(g, a)
  {
    hide Sound;
    assert Edge(g, a, g(a).devs[i]);
    SoundByStep(g, a);
  }

  lemma ImmediateAnswers(g: Graph, a: Dev)
    requires g(a).Deps? && g(a).devs != []
    ensures Answers(g, a, Immediate, Some(g(a).devs))
  {
  }

  lemma ViaStart(g: Graph, devs: seq<Dev>, how: Search)
    ensures forall b :: !WantedVia(g, devs, 0, how, b)
  {
  }

  lemma MergedAnswers(g: Graph, a: Dev, how: Search, merged: seq<Dev>)
    requires g(a).Deps? && g(a).devs != [] && merged != [] && !how.Immediate?
    requires forall b :: b in merged <==> (how.All? && b in g(a).devs) || WantedVia(g, g(a).devs, |g(a).devs|, how, b)
    ensures Answers(g, a, how, Some(merged))
  {
    hide Wanted, WantedVia;
    forall b ensures b in merged <==> Wanted(g, a, how, b) { WantedByStep(g, a, how, b); }
  }

  lemma ViaNext(g: Graph, devs: seq<Dev>, i: nat, how: Search, list: Option<seq<Dev>>)
    requires i < |devs| && !how.Immediate? && Answers(g, devs[i], how, list)
    ensures forall b :: WantedVia(g, devs, i + 1, how, b) <==>
      WantedVia(g, devs, i, how, b) || b in AnswerOf(devs[i], how, list)
    ensures how.Ends? ==> AnswerOf(devs[i], how, list) != []
  {
    hide Wanted;
    if list.None? { NoneWanted(g, devs[i], how); }
    forall b ensures WantedVia(g, devs, i + 1, how, b) <==>
      WantedVia(g, devs, i, how, b) || b in AnswerOf(devs[i], how, list)
    {
      assert WantedVia(g, devs, i + 1, how, b) <==>
        WantedVia(g, devs, i, how, b) || Wanted(g, devs[i], how, b) || (how.Ends? && b == devs[i] && HasNoDeps(g, b));
    }
  }

  /** Two graphs that are each other's reverse, as those for ancestors and for descendants are meant to be. */
  ghost predicate Transposed(g: Graph, h: Graph) {
    forall a, b :: Edge(g, a, b) <==> Edge(h, b, a)
  }

  /** Then `b` is below `a` exactly when `a` is above `b`. */
  lemma BelowIsAbove(g: Graph, h: Graph, a: Dev, b: Dev)
    requires Transposed(g, h)
    ensures Reaches(g, a, b) <==> Reaches(h, b, a)
  {
    if Reaches(g, a, b) { ReversePath(g, h, a, b); }
    if Reaches(h, b, a) { ReversePath(h, g, b, a); }
  }

  lemma ReversePath(g: Graph, h: Graph, a: Dev, b: Dev)
    requires (forall x, y :: Edge(g, x, y) ==> Edge(h, y, x)) && Reaches(g, a, b)
    ensures Reaches(h, b, a)
  {
    var p :| Path(g, p) && p[0] == a && p[|p| - 1] == b;
    var n := |p|;
    var q := seq(n, i requires 0 <= i < n => p[n - 1 - i]);
    forall i | 0 <= i < n - 1 ensures Edge(h, q[i], q[i + 1]) {
      assert Edge(g, p[n - 2 - i], p[n - 2 - i + 1]);
    }
    assert Path(h, q);
  }

  /** Two dependencies that share one: it is listed once for each way. */
  method SharedDependency() returns (immediate: Option<seq<Dev>>, all: Option<seq<Dev>>, ends: Option<seq<Dev>>)
    ensures immediate == Some(["b", "c"]) && all == Some(["b", "c", "d", "d"]) && ends == Some(["d", "d"])
  {
    var g: Graph := (a: Dev) => Deps(if a == "a" then ["b", "c"] else if a == "b" || a == "c" then ["d"] else []);
    ghost var rank := (a: Dev) => (if a == "a" then 2 else if a == "b" || a == "c" then 1 else 0) as nat;
    SharedLists(g, rank);
    hide *;
    var r;
    r, immediate := StackGet(g, "a", Immediate, rank);
    r, all := StackGet(g, "a", All, rank);
    r, ends := StackGet(g, "a", Ends, rank);
    SomeList(immediate);
    SomeList(all);
    SomeList(ends);
  }

  lemma SomeList(list: Option<seq<Dev>>)
    ensures Items(list) != [] ==> list == Some(Items(list))
  {
  }

  lemma SharedLists(g: Graph, rank: Dev -> nat)
    requires g("a") == Deps(["b", "c"]) && g("b") == g("c") == Deps(["d"]) && (forall x :: x !in {"a", "b", "c"} ==> g(x) == Deps([]))
    requires rank("a") == 2 && rank("b") == rank("c") == 1 && rank("d") == 0
    ensures Ranked(g, rank) && Sound(g, "a") && g("a").Deps?
    ensures ListOf(g, "a", Immediate, rank) == ["b", "c"]
    ensures ListOf(g, "a", All, rank) == ["b", "c", "d", "d"] && ListOf(g, "a", Ends, rank) == ["d", "d"]
  {
    hide ListOf, ListVia, Reaches;
    forall x, y | Edge(g, x, y) ensures rank(y) < rank(x) { assert x in {"a", "b", "c"}; }
    OneLists(g, "b", "d", rank);
    OneLists(g, "c", "d", rank);
    TwoLists(g, "a", "b", "c", "d", rank);
  }

  lemma TwoLists(g: Graph, a: Dev, b: Dev, c: Dev, d: Dev, rank: Dev -> nat)
    requires Ranked(g, rank) && g(a) == Deps([b, c]) && g(b) == g(c) == Deps([d])
    requires forall x :: x in {b, c} ==> ListOf(g, x, All, rank) == [d] && ListOf(g, x, Ends, rank) == [d]
    ensures ListOf(g, a, Immediate, rank) == [b, c]
    ensures ListOf(g, a, All, rank) == [b, c, d, d] && ListOf(g, a, Ends, rank) == [d, d]
  {
    hide Ranked;
    assert ListOf(g, b, All, rank) == ListOf(g, c, All, rank) == [d] && ListOf(g, b, Ends, rank) == ListOf(g, c, Ends, rank) == [d];
    assert ListVia(g, a, 1, All, rank) == [d] && ListVia(g, a, 1, Ends, rank) == [d];
    assert ListVia(g, a, 2, All, rank) == [d, d] && ListVia(g, a, 2, Ends, rank) == [d, d];
  }

  lemma LastLists(g: Graph, x: Dev, rank: Dev -> nat)
    requires Ranked(g, rank) && g(x) == Deps([])
    ensures forall how: Search :: ListOf(g, x, how, rank) == []
  {
  }

  lemma OneLists(g: Graph, x: Dev, y: Dev, rank: Dev -> nat)
    requires Ranked(g, rank) && g(x) == Deps([y]) && g(y) == Deps([])
    ensures ListOf(g, x, All, rank) == [y] && ListOf(g, x, Ends, rank) == [y]
  {
    LastLists(g, y, rank);
    assert ListVia(g, x, 1, All, rank) == [] && ListVia(g, x, 1, Ends, rank) == [y];
  }
}
