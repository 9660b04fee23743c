/** Splitting strings into tokens with quotes: a counting pass sizes the memory, a copying pass fills it. */
module Tokens {
  import opened BPTypes

  const EINVAL := 22
  const NUL: char := '\0'

  /** strspn, strcspn and strchr, as numbers of characters. */
  function Span(s: string, chars: string): (n: nat)
    ensures n <= |s| && (n < |s| ==> s[n] !in chars)
  {
    if s == [] || s[0] !in chars then 0 else 1 + Span(s[1..], chars)
  }

  function Cspan(s: string, chars: string): (n: nat)
    ensures n <= |s| && (n < |s| ==> s[n] in chars)
    ensures s != [] && s[0] !in chars ==> n > 0
  {
    if s == [] || s[0] in chars then 0 else 1 + Cspan(s[1..], chars)
  }

  function Strchr(s: string, c: char): (n: nat)
    ensures n <= |s| && (n < |s| ==> s[n] == c)
  {
    if s == [] || s[0] == c then 0 else 1 + Strchr(s[1..], c)
  }

  /** A piece the scanner reports: its text, and whether it continues the token before it. */
  datatype Piece = Piece(text: string, mergeBack: bool)

  /** Whether what follows continues the token: at the end of the string it does not. */
  predicate Continues(s: string, delims: string) {
    s != [] && s[0] !in delims
  }

  function Cons(p: Piece, rest: Option<seq<Piece>>): Option<seq<Piece>> {
    if rest.None? then None else Some([p] + rest.value)
  }

  /** What the scanner finds next: nothing, a quote that is not closed, or a piece and the rest of the string. */
  datatype Next = Done | Unclosed | Found(text: string, rest: string)

  function NextPiece(str: string, delims: string, quotes: string): (r: Next)
    ensures r.Found? ==> |r.rest| < |str|
  {
    var s := str[Span(str, delims)..];
    if s == [] then Done
    else if s[0] in quotes then
      var len := Strchr(s[1..], s[0]);
      if len == |s| - 1 then Unclosed else Found(s[1..len + 1], s[len + 2..])
    else
      var len := Cspan(s, quotes + delims);
      assert s[0] !in quotes + delims;
      Found(s[..len], s[len..])
  }

  /** The pieces of a string; none when a quote is not closed. */
  function Pieces(str: string, delims: string, quotes: string, mergeBack: bool): Option<seq<Piece>>
    decreases |str|
  {
    var next := NextPiece(str, delims, quotes);
    if next.Done? then Some([])
    else if next.Unclosed? then None
    else Cons(Piece(next.text, mergeBack), Pieces(next.rest, delims, quotes, Continues(next.rest, delims)))
  }

  /** The tokens pieces make up. */
  function Group(ps: seq<Piece>): seq<string> {
    if ps == [] then []
    else
      var before, p := Group(ps[..|ps| - 1]), ps[|ps| - 1];
      if p.mergeBack && before != [] then before[..|before| - 1] + [before[|before| - 1] + p.text]
      else before + [p.text]
  }

  /** The same tokens, grouped first piece first; `cur` is the token being built. */
  function GroupFrom(cur: Option<string>, ps: seq<Piece>): seq<string>
    decreases ps
  {
    if ps == [] then (if cur.Some? then [cur.value] else [])
    else if ps[0].mergeBack && cur.Some? then GroupFrom(Some(cur.value + ps[0].text), ps[1..])
    else (if cur.Some? then [cur.value] else []) + GroupFrom(Some(ps[0].text), ps[1..])
  }

  function Join(a: Option<seq<string>>, b: Option<seq<string>>): Option<seq<string>> {
    if a.None? || b.None? then None else Some(a.value + b.value)
  }

  /** The reference: a character at a time, with the token being built and the open quote. A delimiter ends a token, a
      quote opens and closes, and everything else, also a delimiter inside quotes, belongs to the token. */
  function Reference(s: string, delims: string, quotes: string, cur: Option<string>, open: Option<char>): Option<seq<string>>
    decreases |s|
  {
    if s == [] then
      if open.Some? then None else Some(if cur.Some? then [cur.value] else [])
    else
      var text := if cur.Some? then cur.value else [];
      if open.Some? then
        if s[0] == open.value then Reference(s[1..], delims, quotes, Some(text), None)
        else Reference(s[1..], delims, quotes, Some(text + [s[0]]), open)
      else if s[0] in delims then
        Join(Some(if cur.Some? then [cur.value] else []), Reference(s[1..], delims, quotes, None, None))
      else if s[0] in quotes then Reference(s[1..], delims, quotes, Some(text), Some(s[0]))
      else Reference(s[1..], delims, quotes, Some(text + [s[0]]), None)
  }

  function Regroup(cur: Option<string>, ps: Option<seq<Piece>>): Option<seq<string>> {
    if ps.None? then None else Some(GroupFrom(cur, ps.value))
  }

  lemma {:induction false} QuoteRun(s: string, delims: string, quotes: string, cur: string, q: char)
    ensures var n := Strchr(s, q);
      Reference(s, delims, quotes, Some(cur), Some(q)) ==
      if n == |s| then None else Reference(s[n + 1..], delims, quotes, Some(cur + s[..n]), None)
    decreases |s|
  {
    if s != [] && s[0] != q {
      QuoteRun(s[1..], delims, quotes, cur + [s[0]], q);
      var n := Strchr(s[1..], q);
      assert cur + [s[0]] + s[1..][..n] == cur + s[..n + 1];
      if n < |s| - 1 { assert s[1..][n + 1..] == s[n + 2..]; }
    } else if s != [] {
      assert cur + s[..0] == cur;
    }
  }

  lemma {:induction false} PlainRun(s: string, delims: string, quotes: string, cur: string)
    ensures var n := Cspan(s, quotes + delims);
      Reference(s, delims, quotes, Some(cur), None) == Reference(s[n..], delims, quotes, Some(cur + s[..n]), None)
    decreases |s|
  {
    if s != [] && s[0] !in quotes + delims {
      PlainRun(s[1..], delims, quotes, cur + [s[0]]);
      var n := Cspan(s[1..], quotes + delims);
      assert cur + [s[0]] + s[1..][..n] == cur + s[..n + 1];
      assert s[1..][n..] == s[n + 1..];
    } else {
      assert s[0..] == s && cur + s[..0] == cur;
    }
  }

  /** Leading delimiters change nothing about the pieces that follow. */
  lemma SkipDelim(s: string, delims: string, quotes: string)
    requires s != [] && s[0] in delims
    ensures NextPiece(s, delims, quotes) == NextPiece(s[1..], delims, quotes)
  {
    assert s[Span(s, delims)..] == s[1..][Span(s[1..], delims)..];
  }

  lemma FirstStands(s: string, delims: string, quotes: string)
    ensures var ps := Pieces(s, delims, quotes, false);
      ps.Some? && ps.value != [] ==> !ps.value[0].mergeBack
  {
  }

  lemma ApartFrom(cur: Option<string>, ps: seq<Piece>)
    requires ps != [] ==> !ps[0].mergeBack
    ensures GroupFrom(cur, ps) == (if cur.Some? then [cur.value] else []) + GroupFrom(None, ps)
  {
    if ps != [] {
      assert [] + GroupFrom(Some(ps[0].text), ps[1..]) == GroupFrom(Some(ps[0].text), ps[1..]);
    }
  }

  lemma NoSpan(s: string, delims: string)
    requires s == [] || s[0] !in delims
    ensures s[Span(s, delims)..] == s
  {
  }

  lemma TakeUp(cur: Option<string>, text: string, mergeBack: bool, rest: seq<Piece>)
    requires mergeBack <==> cur.Some?
    ensures GroupFrom(cur, [Piece(text, mergeBack)] + rest) == GroupFrom(Some((if cur.Some? then cur.value else []) + text), rest)
  {
    var ps := [Piece(text, mergeBack)] + rest;
    assert ps[1..] == rest;
    if cur.None? {
      assert [] + text == text;
      assert [] + GroupFrom(Some(text), rest) == GroupFrom(Some(text), rest);
    }
  }

  /** The scanner with its merging computes the reference. */
  lemma {:induction false} ScanIsReference(s: string, delims: string, quotes: string, cur: Option<string>, mergeBack: bool)
    requires mergeBack <==> cur.Some? && Continues(s, delims)
    ensures Reference(s, delims, quotes, cur, None) == Regroup(cur, Pieces(s, delims, quotes, mergeBack))
    decreases |s|, 0
  {
    hide Strchr, Cspan, NextPiece;
    if s == [] {
      NextOfEmpty(delims, quotes);
    } else if s[0] in delims {
      ScanIsReference(s[1..], delims, quotes, None, false);
      SkipDelim(s, delims, quotes);
      FirstStands(s, delims, quotes);
      var ps := Pieces(s, delims, quotes, false);
      if ps.Some? { ApartFrom(cur, ps.value); }
    } else {
      NextHere(s, delims, quotes);
      var text := if cur.Some? then cur.value else [];
      if s[0] in quotes {
        QuoteRun(s[1..], delims, quotes, text, s[0]);
        var n := Strchr(s[1..], s[0]);
        if n < |s| - 1 {
          assert s[1..][..n] == s[1..n + 1] && s[1..][n + 1..] == s[n + 2..];
          Later(s, delims, quotes, cur, mergeBack, s[1..n + 1], s[n + 2..]);
        }
      } else {
        PlainRun(s, delims, quotes, text);
        var n := Cspan(s, quotes + delims);
        CspanMoves(s, quotes + delims);
        Later(s, delims, quotes, cur, mergeBack, s[..n], s[n..]);
      }
    }
  }

  lemma NextOfEmpty(delims: string, quotes: string)
    ensures NextPiece("", delims, quotes) == Done
  {
  }

  lemma NextHere(s: string, delims: string, quotes: string)
    requires s != [] && s[0] !in delims
    ensures NextPiece(s, delims, quotes) ==
      if s[0] in quotes then
        var n := Strchr(s[1..], s[0]);
        if n == |s| - 1 then Unclosed else Found(s[1..n + 1], s[n + 2..])
      else
        var n := Cspan(s, quotes + delims);
        Found(s[..n], s[n..])
  {
    hide Strchr, Cspan;
    NoSpan(s, delims);
  }

  lemma CspanMoves(s: string, chars: string)
    requires s != [] && s[0] !in chars
    ensures Cspan(s, chars) > 0
  {
  }

  /** The step after a piece. */
  lemma {:induction false} Later(s: string, delims: string, quotes: string, cur: Option<string>, mergeBack: bool, text: string, rest: string)
    requires |rest| < |s| && (mergeBack <==> cur.Some?)
    ensures var all := (if cur.Some? then cur.value else []) + text;
      Reference(rest, delims, quotes, Some(all), None) ==
      Regroup(cur, Cons(Piece(text, mergeBack), Pieces(rest, delims, quotes, Continues(rest, delims))))
    decreases |rest|, 1
  {
    var all := (if cur.Some? then cur.value else []) + text;
    ScanIsReference(rest, delims, quotes, Some(all), Continues(rest, delims));
    var ps := Pieces(rest, delims, quotes, Continues(rest, delims));
    if ps.Some? { TakeUp(cur, text, mergeBack, ps.value); }
  }

  /** Grouping as the copier does it, last piece last, is the same. */
  lemma {:induction false} GroupForward(cur: Option<string>, ps: seq<Piece>, p: Piece)
    ensures var before := GroupFrom(cur, ps);
      GroupFrom(cur, ps + [p]) ==
      if p.mergeBack && before != [] then before[..|before| - 1] + [before[|before| - 1] + p.text] else before + [p.text]
    decreases ps
  {
    if ps == [] {
      assert ([] + [p])[1..] == [];
    } else {
      var next := if ps[0].mergeBack && cur.Some? then Some(cur.value + ps[0].text) else Some(ps[0].text);
      assert (ps + [p])[1..] == ps[1..] + [p];
      GroupForward(next, ps[1..], p);
      GroupNonempty(next, ps[1..]);
    }
  }

  lemma {:induction false} GroupNonempty(cur: Option<string>, ps: seq<Piece>)
    requires cur.Some?
    ensures GroupFrom(cur, ps) != []
    decreases ps
  {
    if ps != [] && ps[0].mergeBack { GroupNonempty(Some(cur.value + ps[0].text), ps[1..]); }
  }

  lemma {:induction false} GroupIsForward(ps: seq<Piece>)
    ensures Group(ps) == GroupFrom(None, ps)
  {
    if ps != [] {
      GroupIsForward(ps[..|ps| - 1]);
      GroupForward(None, ps[..|ps| - 1], ps[|ps| - 1]);
      assert ps[..|ps| - 1] + [ps[|ps| - 1]] == ps;
    }
  }

  /** The tokens of a string are what the reference says. */
  lemma TokensAreReference(s: string, delims: string, quotes: string)
    ensures var ps := Pieces(s, delims, quotes, false);
      Reference(s, delims, quotes, None, None) == if ps.None? then None else Some(Group(ps.value))
  {
    ScanIsReference(s, delims, quotes, None, false);
    var ps := Pieces(s, delims, quotes, false);
    if ps.Some? { GroupIsForward(ps.value); }
  }

  /** What the counting pass is to find: tokens begun, and characters. */
  function Begun(ps: seq<Piece>): nat {
    if ps == [] then 0 else Begun(ps[..|ps| - 1]) + if ps[|ps| - 1].mergeBack then 0 else 1
  }

  function Chars(ps: seq<Piece>): nat {
    if ps == [] then 0 else Chars(ps[..|ps| - 1]) + |ps[|ps| - 1].text|
  }

  /** The strings one after the other, each with its NUL. */
  function Flat(tokens: seq<string>): string {
    if tokens == [] then [] else Flat(tokens[..|tokens| - 1]) + tokens[|tokens| - 1] + [NUL]
  }

  /** No piece continues a token before there is one. */
  predicate Begins(ps: seq<Piece>) {
    ps != [] ==> !ps[0].mergeBack
  }

  lemma {:induction false} BegunIsTokens(ps: seq<Piece>)
    requires Begins(ps)
    ensures |Group(ps)| == Begun(ps) && |Flat(Group(ps))| == Chars(ps) + Begun(ps)
    ensures ps != [] ==> Group(ps) != []
  {
    if ps != [] {
      var before, p := ps[..|ps| - 1], ps[|ps| - 1];
      BegunIsTokens(before);
      if p.mergeBack && Group(before) != [] { FlatLast(Group(before), p.text); } else { FlatMore(Group(before), p.text); }
    }
  }

  lemma FlatMore(tokens: seq<string>, t: string)
    ensures Flat(tokens + [t]) == Flat(tokens) + t + [NUL]
  {
    assert (tokens + [t])[..|tokens|] == tokens;
  }

  /** Lengthening the last string: its NUL moves. */
  lemma FlatLast(tokens: seq<string>, t: string)
    requires tokens != []
    ensures var more := tokens[..|tokens| - 1] + [tokens[|tokens| - 1] + t];
      && Flat(tokens) != [] && Flat(more) == Flat(tokens)[..|Flat(tokens)| - 1] + t + [NUL]
      && |Flat(more)| == |Flat(tokens)| + |t|
  {
    var n := |tokens| - 1;
    FlatMore(tokens[..n], tokens[n] + t);
    assert Flat(tokens)[..|Flat(tokens)| - 1] == Flat(tokens[..n]) + tokens[n];
    assert Flat(tokens[..n]) + (tokens[n] + t) == Flat(tokens[..n]) + tokens[n] + t;
  }

  lemma Snoc(ps: seq<Piece>, p: Piece)
    ensures Begun(ps + [p]) == Begun(ps) + (if p.mergeBack then 0 else 1)
    ensures Chars(ps + [p]) == Chars(ps) + |p.text|
    ensures var g := Group(ps);
      Group(ps + [p]) == if p.mergeBack && g != [] then g[..|g| - 1] + [g[|g| - 1] + p.text] else g + [p.text]
    ensures Begins(ps) && (ps == [] ==> !p.mergeBack) ==> Begins(ps + [p])
  {
    assert (ps + [p])[..|ps|] == ps;
  }

  class TokenCounter {
    var tokens: nat
    var chars: nat

    constructor ()
      ensures tokens == 0 && chars == 0
    {
      tokens, chars := 0, 0;
    }

    /** util.c _count_token */
    method Token(p: Piece, ghost before: seq<Piece>)
      requires tokens == Begun(before) && chars == Chars(before)
      modifies this
      ensures tokens == Begun(before + [p]) && chars == Chars(before + [p])
    {
      Snoc(before, p);
      if !p.mergeBack { tokens := tokens + 1; }
      chars := chars + |p.text|;
    }
  }

  /** The copying pass: `slots` are the pointers, as offsets into `area`; `s` is where the next character goes. */
  class StrvIter {
    const slots: array<Option<nat>>
    const area: array<char>
    var i: nat
    var s: nat

    constructor (tokens: nat, chars: nat)
      ensures fresh(slots) && fresh(area) && slots.Length == tokens + 1 && area.Length == chars + tokens
      ensures Copied([])
    {
      slots := new Option<nat>[tokens + 1](_ => None);
      area := new char[chars + tokens](_ => NUL);
      i, s := 0, 0;
    }

    /** The strings of the tokens so far lie one after the other, and each slot points to its string. */
    ghost predicate Copied(tokens: seq<string>)
      reads this, slots, area
    {
      && i == |tokens| < slots.Length && s == |Flat(tokens)| <= area.Length
      && area[..s] == Flat(tokens)
      && forall k :: 0 <= k < i ==> slots[k] == Some(|Flat(tokens[..k])|)
    }

    /** util.c _copy_token_to_strv */
    method Token(p: Piece, ghost before: seq<Piece>)
      requires Copied(Group(before))
      requires |Group(before + [p])| < slots.Length && |Flat(Group(before + [p]))| <= area.Length
      modifies this, slots, area
      ensures Copied(Group(before + [p]))
    {
      hide *;
      ghost var g := Group(before);
      ghost var head := Head(g, p);
      Snoc(before, p);
      HeadMeans(g, p);
      CopiedParts(g);
      assert g[..|g|] == g;
      if p.mergeBack && i > 0 {
        s, i := s - 1, i - 1;
      } else {
        slots[i] := Some(s);
      }
      assert area[..s] == head.text;
      PutText(area, s, p.text);
      s, i := s + |p.text| + 1, i + 1;
      CopiedAgain(g, p, Group(before + [p]));
    }

    lemma CopiedParts(g: seq<string>)
      requires Copied(g)
      ensures i == |g| < slots.Length && s == |Flat(g)| <= area.Length && area[..s] == Flat(g)
      ensures forall k :: 0 <= k < i ==> slots[k] == Some(|Flat(g[..k])|)
    {
    }

    lemma CopiedAgain(g: seq<string>, p: Piece, more: seq<string>)
      requires more == (if p.mergeBack && g != [] then g[..|g| - 1] + [g[|g| - 1] + p.text] else g + [p.text])
      requires var h := Head(g, p);
        && h.count + 1 == i <= |more| < slots.Length && s <= area.Length
        && area[..s] == h.text + p.text + [NUL] && s == |h.text| + |p.text| + 1
        && |Flat(more)| <= area.Length
        && forall k :: 0 <= k < i ==> slots[k] == Some(|Flat(g[..k])|)
      ensures Copied(more)
    {
      HeadMeans(g, p);
      hide Flat;
      assert forall k :: 0 <= k < i ==> more[..k] == g[..k];
    }
  }

  /** What stays of the tokens `g` when piece `p` comes: their text, without the last NUL if `p` continues the last. */
  datatype Kept = Kept(text: string, count: nat)

  ghost function Head(g: seq<string>, p: Piece): Kept {
    if p.mergeBack && g != [] && Flat(g) != [] then Kept(Flat(g)[..|Flat(g)| - 1], |g| - 1) else Kept(Flat(g), |g|)
  }

  lemma HeadMeans(g: seq<string>, p: Piece)
    ensures var more := if p.mergeBack && g != [] then g[..|g| - 1] + [g[|g| - 1] + p.text] else g + [p.text];
      var h := Head(g, p);
      && Flat(more) == h.text + p.text + [NUL] && |more| == h.count + 1
      && h == if p.mergeBack && g != [] then Kept(Flat(g)[..|Flat(g)| - 1], |g| - 1) else Kept(Flat(g), |g|)
    ensures g != [] ==> Flat(g) != []
  {
    if g != [] { FlatLast(g, p.text); }
    FlatMore(g, p.text);
  }

  /** memcpy of a piece and its NUL */
  method PutText(area: array<char>, at: nat, text: string)
    requires at + |text| + 1 <= area.Length
    modifies area
    ensures area[..at + |text| + 1] == old(area[..at]) + text + [NUL]
  {
    for i := 0 to |text|
      invariant area[..at + i] == old(area[..at]) + text[..i]
    {
      area[at + i] := text[i];
      assert area[..at + i + 1] == area[..at + i] + [text[i]];
      assert text[..i + 1] == text[..i] + [text[i]];
    }
    assert text[..|text|] == text;
    area[at + |text|] := NUL;
    assert area[..at + |text| + 1] == area[..at + |text|] + [NUL];
  }

  /** The two callbacks the scanner is used with. */
  datatype Sink = Counting(c: TokenCounter) | Copying(k: StrvIter)

  ghost function State(sink: Sink): set<object> {
    match sink
    case Counting(c) => {c}
    case Copying(k) => {k, k.slots, k.area}
  }

  /** The callback has seen the pieces `ps`. */
  ghost predicate Saw(sink: Sink, ps: seq<Piece>)
    reads State(sink)
  {
    match sink
    case Counting(c) => c.tokens == Begun(ps) && c.chars == Chars(ps)
    case Copying(k) => k.Copied(Group(ps))
  }

  /** The callback has room for the pieces `ps`. */
  ghost predicate Fits(sink: Sink, ps: seq<Piece>) {
    match sink
    case Counting(_) => true
    case Copying(k) => |Group(ps)| < k.slots.Length && |Flat(Group(ps))| <= k.area.Length
  }

  lemma {:induction false} FitsPrefix(sink: Sink, ps: seq<Piece>, more: seq<Piece>)
    requires Fits(sink, ps + more)
    ensures Fits(sink, ps)
    decreases |more|
  {
    if more == [] {
      assert ps + more == ps;
    } else {
      var most, p := more[..|more| - 1], more[|more| - 1];
      assert ps + more == ps + most + [p];
      Snoc(ps + most, p);
      var g := Group(ps + most);
      if p.mergeBack && g != [] { FlatLast(g, p.text); } else { FlatMore(g, p.text); }
      FitsPrefix(sink, ps, most);
    }
  }

  method Report(sink: Sink, p: Piece, ghost before: seq<Piece>)
    requires Saw(sink, before) && Fits(sink, before + [p])
    modifies State(sink)
    ensures Saw(sink, before + [p])
  {
    match sink
    case Counting(c) => c.Token(p, before);
    case Copying(k) => k.Token(p, before);
  }

  function OrEmpty(s: Option<string>): string {
    if s.Some? then s.value else ""
  }

  /** The pieces of a string that may be missing. */
  function PiecesOf(str: Option<string>, delims: Option<string>, quotes: Option<string>): Option<seq<Piece>> {
    if str.None? then Some([]) else Pieces(str.value, OrEmpty(delims), OrEmpty(quotes), false)
  }

  /** What is found and what is left make up the pieces of the whole. */
  ghost predicate Scanned(found: seq<Piece>, left: Option<seq<Piece>>, all: Option<seq<Piece>>) {
    all == if left.None? then None else Some(found + left.value)
  }

  lemma ScannedMore(found: seq<Piece>, p: Piece, rest: Option<seq<Piece>>, all: Option<seq<Piece>>)
    requires Scanned(found, Cons(p, rest), all)
    ensures Scanned(found + [p], rest, all)
  {
    if rest.Some? { assert found + ([p] + rest.value) == found + [p] + rest.value; }
  }

  /** util.c util_str_iterate_tokens: every turn takes at least one character. */
  method IterateTokens(str: Option<string>, delims: Option<string>, quotes: Option<string>, sink: Sink, ghost before: seq<Piece>)
    returns (r: int)
    requires Saw(sink, before)
    requires var ps := PiecesOf(str, delims, quotes);
      if ps.Some? then Fits(sink, before + ps.value) else sink.Counting?
    modifies State(sink)
    ensures r == if PiecesOf(str, delims, quotes).Some? then 0 else -EINVAL
    ensures r == 0 ==> Saw(sink, before + PiecesOf(str, delims, quotes).value)
  {
    hide Pieces, Saw, Fits, Span, Cspan, Strchr, Group, Begun, Chars;
    if str.None? {
      assert before + [] == before;
      return 0;
    }
    ghost var all := PiecesOf(str, delims, quotes);
    var d, q, s, mergeBack := OrEmpty(delims), OrEmpty(quotes), str.value, false;
    ghost var found: seq<Piece> := [];
    ScanStarts(all);
    assert before + found == before;
    while s != []
      invariant Scanned(found, Pieces(s, d, q, mergeBack), all) && Saw(sink, before + found)
      decreases |s|
    {
      ghost var str0 := s;
      s := s[Span(s, d)..];
      if s == [] {
        TurnIs(str0, d, q, mergeBack, Done);
        NothingLeft(found, all);
        return 0;
      }
      var p;
      if s[0] in q {
        var len := Strchr(s[1..], s[0]);
        if len == |s| - 1 {
          TurnIs(str0, d, q, mergeBack, Unclosed);
          return -EINVAL;
        }
        p := Piece(s[1..len + 1], mergeBack);
        s := s[len + 2..];
      } else {
        NotSpecial(s[0], q, d);
        var len := Cspan(s, q + d);
        p := Piece(s[..len], mergeBack);
        s := s[len..];
      }
      TurnIs(str0, d, q, mergeBack, Found(p.text, s));
      mergeBack := Continues(s, d);
      NextFits(sink, before, found, p, Pieces(s, d, q, mergeBack), all);
      ScannedMore(found, p, Pieces(s, d, q, mergeBack), all);
      Report(sink, p, before + found);
      assert before + found + [p] == before + (found + [p]);
      found := found + [p];
    }
    NoPieces(d, q, mergeBack);
    NothingLeft(found, all);
    r := 0;
  }

  lemma NotSpecial(c: char, quotes: string, delims: string)
    requires c !in quotes && c !in delims
    ensures c !in quotes + delims
  {
  }

  /** One turn of the scanner. */
  lemma TurnIs(str: string, delims: string, quotes: string, mergeBack: bool, next: Next)
    requires next == NextPiece(str, delims, quotes)
    ensures Pieces(str, delims, quotes, mergeBack) ==
      if next.Done? then Some([])
      else if next.Unclosed? then None
      else Cons(Piece(next.text, mergeBack), Pieces(next.rest, delims, quotes, Continues(next.rest, delims)))
    ensures next.Found? ==> |next.rest| < |str|
  {
    hide NextPiece;
  }

  lemma ScanStarts(all: Option<seq<Piece>>)
    ensures Scanned([], all, all)
  {
    if all.Some? { assert [] + all.value == all.value; }
  }

  lemma NoPieces(delims: string, quotes: string, mergeBack: bool)
    ensures Pieces("", delims, quotes, mergeBack) == Some([])
  {
  }

  lemma NothingLeft(found: seq<Piece>, all: Option<seq<Piece>>)
    requires Scanned(found, Some([]), all)
    ensures all == Some(found)
  {
    assert found + [] == found;
  }

  lemma NextFits(sink: Sink, before: seq<Piece>, found: seq<Piece>, p: Piece, rest: Option<seq<Piece>>, all: Option<seq<Piece>>)
    requires Scanned(found, Cons(p, rest), all)
    requires if all.Some? then Fits(sink, before + all.value) else sink.Counting?
    ensures Fits(sink, before + found + [p])
  {
    if all.Some? {
      assert before + all.value == before + found + [p] + rest.value;
      FitsPrefix(sink, before + found + [p], rest.value);
    }
  }

  const POINTER_SIZE: nat := 8

  /** util.c _get_strv_full_mem_size */
  function FullMemSize(tokens: nat, chars: nat): nat {
    (tokens + 1) * POINTER_SIZE + chars + tokens
  }

  /** The tokens of a string that may be missing, by the reference. */
  function TokensOf(str: Option<string>, delims: Option<string>, quotes: Option<string>): Option<seq<string>> {
    if str.None? then Some([])
    else Reference(str.value, if delims.Some? then delims.value else "", if quotes.Some? then quotes.value else "", None, None)
  }

  lemma PiecesAreTokens(str: Option<string>, delims: Option<string>, quotes: Option<string>)
    ensures var ps := PiecesOf(str, delims, quotes);
      && TokensOf(str, delims, quotes) == (if ps.None? then None else Some(Group(ps.value)))
      && (ps.Some? ==> Begins(ps.value))
  {
    if str.Some? {
      TokensAreReference(str.value, OrEmpty(delims), OrEmpty(quotes));
      FirstStands(str.value, OrEmpty(delims), OrEmpty(quotes));
    }
  }

  /** The pieces of separate strings make separate tokens. */
  lemma {:induction false} GroupAppend(a: seq<Piece>, b: seq<Piece>)
    requires Begins(b)
    ensures Group(a + b) == Group(a) + Group(b)
    ensures Begins(a) ==> Begins(a + b)
  {
    if b == [] {
      assert a + b == a;
    } else {
      var most, p := b[..|b| - 1], b[|b| - 1];
      GroupAppend(a, most);
      assert a + b == a + most + [p] && b == most + [p];
      AppendOne(a, most, p);
    }
  }

  lemma AppendOne(a: seq<Piece>, most: seq<Piece>, p: Piece)
    requires Begins(most + [p]) && Group(a + most) == Group(a) + Group(most) && (Begins(a) ==> Begins(a + most))
    ensures Group(a + most + [p]) == Group(a) + Group(most + [p])
    ensures Begins(a) ==> Begins(a + most + [p])
  {
    hide Group;
    Snoc(a + most, p);
    Snoc(most, p);
    var x, y := Group(a), Group(most);
    assert x + (y + [p.text]) == x + y + [p.text];
    if most == [] {
      assert (most + [p])[0] == p;
      EmptyGroup();
      assert x + y == x && [] + [p.text] == [p.text];
    } else {
      GroupSome(most);
      Lengthen(x, y, p.text);
    }
    if Begins(a) && a + most == [] { assert (most + [p])[0] == p; }
  }

  lemma Lengthen(x: seq<string>, y: seq<string>, t: string)
    requires y != []
    ensures x + y != [] && (x + y)[..|x + y| - 1] + [(x + y)[|x + y| - 1] + t] == x + (y[..|y| - 1] + [y[|y| - 1] + t])
  {
    assert (x + y)[..|x + y| - 1] == x + y[..|y| - 1] && (x + y)[|x + y| - 1] == y[|y| - 1];
  }

  lemma EmptyGroup()
    ensures Group([]) == []
  {
  }

  lemma {:induction false} GroupSome(ps: seq<Piece>)
    ensures ps != [] ==> Group(ps) != []
  {
  }

  /** A finished vector: the pointers, the missing last one, and the memory the strings fill to the last byte. */
  datatype Strv = Strv(slots: seq<Option<nat>>, area: string)

  ghost predicate IsStrv(v: Strv, tokens: seq<string>) {
    && |v.slots| == |tokens| + 1 && v.slots[|tokens|] == None
    && v.area == Flat(tokens)
    && forall k :: 0 <= k < |tokens| ==> v.slots[k] == Some(|Flat(tokens[..k])|)
  }

  /** Slot `k` points to the text of token `k`, followed by a NUL. */
  lemma SlotHolds(v: Strv, tokens: seq<string>, k: nat)
    requires IsStrv(v, tokens) && k < |tokens|
    ensures v.slots[k].Some?
    ensures var at := v.slots[k].value;
      at + |tokens[k]| < |v.area| && v.area[at..at + |tokens[k]|] == tokens[k] && v.area[at + |tokens[k]|] == NUL
  {
    FlatMore(tokens[..k], tokens[k]);
    assert tokens[..k + 1] == tokens[..k] + [tokens[k]];
    FlatPrefix(tokens, k + 1);
  }

  lemma {:induction false} FlatPrefix(tokens: seq<string>, n: nat)
    requires n <= |tokens|
    ensures Flat(tokens[..n]) <= Flat(tokens)
  {
    if n == |tokens| {
      assert tokens[..n] == tokens;
    } else {
      FlatPrefix(tokens[..|tokens| - 1], n);
      assert tokens[..|tokens| - 1][..n] == tokens[..n];
    }
  }

  /** util.c util_str_comb_to_strv. `mem` is the size of the caller's memory, when it gives any. */
  method CombToStrv(mem: Option<nat>, prefix: Option<string>, str: Option<string>, suffix: Option<string>,
                    delims: Option<string>, quotes: Option<string>) returns (r: Option<Strv>)
    ensures var all := Join(Join(TokensOf(prefix, delims, quotes), TokensOf(str, delims, quotes)), TokensOf(suffix, delims, quotes));
      if all.None? then r == None
      else if mem.Some? && mem.value < (|all.value| + 1) * POINTER_SIZE + |Flat(all.value)| then r == None
      else r.Some? && IsStrv(r.value, all.value)
  {
    hide PiecesOf, TokensOf, Group, Begun, Chars, Flat, Begins, Saw;
    PiecesAreTokens(prefix, delims, quotes);
    PiecesAreTokens(str, delims, quotes);
    PiecesAreTokens(suffix, delims, quotes);
    ghost var p1, p2, p3 := PiecesOf(prefix, delims, quotes), PiecesOf(str, delims, quotes), PiecesOf(suffix, delims, quotes);
    var counter := new TokenCounter();
    SawNothing(Counting(counter));
    var rc := Pass(prefix, str, suffix, delims, quotes, Counting(counter));
    if rc < 0 { return None; }
    ghost var ps := p1.value + p2.value + p3.value;
    AllTokens(p1.value, p2.value, p3.value);
    Counted(counter, ps);
    if mem.Some? && FullMemSize(counter.tokens, counter.chars) > mem.value { return None; }
    var copier := new StrvIter(counter.tokens, counter.chars);
    SawNothing2(copier);
    rc := Pass(prefix, str, suffix, delims, quotes, Copying(copier));
    Finished(copier, ps);
    copier.slots[counter.tokens] := None;
    return Some(Strv(copier.slots[..], copier.area[..]));
  }

  /** One pass over the three strings. */
  method Pass(prefix: Option<string>, str: Option<string>, suffix: Option<string>, delims: Option<string>, quotes: Option<string>, sink: Sink)
    returns (r: int)
    requires Saw(sink, [])
    requires var p1, p2, p3 := PiecesOf(prefix, delims, quotes), PiecesOf(str, delims, quotes), PiecesOf(suffix, delims, quotes);
      if p1.Some? && p2.Some? && p3.Some? then Fits(sink, p1.value + p2.value + p3.value) else sink.Counting?
    modifies State(sink)
    ensures var p1, p2, p3 := PiecesOf(prefix, delims, quotes), PiecesOf(str, delims, quotes), PiecesOf(suffix, delims, quotes);
      && r == (if p1.Some? && p2.Some? && p3.Some? then 0 else -EINVAL)
      && (r == 0 ==> Saw(sink, p1.value + p2.value + p3.value))
  {
    hide PiecesOf, Saw, Fits;
    ghost var p1, p2, p3 := PiecesOf(prefix, delims, quotes), PiecesOf(str, delims, quotes), PiecesOf(suffix, delims, quotes);
    ThreeFit(sink, p1, p2, p3);
    r := IterateTokens(prefix, delims, quotes, sink, []);
    if r < 0 { return; }
    assert [] + p1.value == p1.value;
    r := IterateTokens(str, delims, quotes, sink, p1.value);
    if r < 0 { return; }
    r := IterateTokens(suffix, delims, quotes, sink, p1.value + p2.value);
  }

  lemma ThreeFit(sink: Sink, p1: Option<seq<Piece>>, p2: Option<seq<Piece>>, p3: Option<seq<Piece>>)
    requires if p1.Some? && p2.Some? && p3.Some? then Fits(sink, p1.value + p2.value + p3.value) else sink.Counting?
    ensures if p1.Some? then Fits(sink, [] + p1.value) else sink.Counting?
    ensures p1.Some? ==> if p2.Some? then Fits(sink, p1.value + p2.value) else sink.Counting?
    ensures p1.Some? && p2.Some? ==> if p3.Some? then Fits(sink, p1.value + p2.value + p3.value) else sink.Counting?
  {
    if p1.Some? && p2.Some? && p3.Some? {
      FitsPrefix(sink, p1.value + p2.value, p3.value);
      FitsPrefix(sink, p1.value, p2.value);
      assert [] + p1.value == p1.value;
    }
  }

  lemma SawNothing(sink: Sink)
    requires sink.Counting? && sink.c.tokens == 0 && sink.c.chars == 0
    ensures Saw(sink, [])
  {
  }

  lemma SawNothing2(k: StrvIter)
    requires k.Copied([])
    ensures Saw(Copying(k), [])
  {
  }

  lemma AllTokens(a: seq<Piece>, b: seq<Piece>, c: seq<Piece>)
    requires Begins(a) && Begins(b) && Begins(c)
    ensures Group(a + b + c) == Group(a) + Group(b) + Group(c) && Begins(a + b + c)
  {
    GroupAppend(a, b);
    GroupAppend(a + b, c);
  }

  lemma Counted(c: TokenCounter, ps: seq<Piece>)
    requires Saw(Counting(c), ps) && Begins(ps)
    ensures c.tokens == |Group(ps)| && c.chars + c.tokens == |Flat(Group(ps))|
    ensures forall k: StrvIter :: k.slots.Length == c.tokens + 1 && k.area.Length == c.chars + c.tokens ==> Fits(Copying(k), ps)
  {
    BegunIsTokens(ps);
  }

  lemma Finished(k: StrvIter, ps: seq<Piece>)
    requires Saw(Copying(k), ps) && k.slots.Length == |Group(ps)| + 1 && k.area.Length == |Flat(Group(ps))|
    ensures k.area[..] == Flat(Group(ps))
    ensures forall n :: 0 <= n < |Group(ps)| ==> k.slots[n] == Some(|Flat(Group(ps)[..n])|)
  {
    assert k.area[..k.s] == k.area[..];
  }
}
