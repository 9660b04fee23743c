/** Base64 with the alphabet of section 4 of RFC 4648. Bytes are integers below 256; a shift is written as a division or
    a multiplication, and an or of bits that do not overlap as a sum. */
module Base64 {
  import opened BPTypes

  type Byte = b: int | 0 <= b < 256

  const EINVAL := 22
  const SIZE_MAX1: nat := 0x1_0000_0000_0000_0000
  const PAD: Byte := '=' as int
  const INVALID: Byte := 0x80

  /** conv-base64.c base64_table */
  function Table(v: nat): (c: Byte)
    requires v < 64
    ensures c != PAD && c != 0
  {
    if v < 26 then 'A' as int + v
    else if v < 52 then 'a' as int + (v - 26)
    else if v < 62 then '0' as int + (v - 52)
    else if v == 62 then '+' as int else '/' as int
  }

  /** The table the decoder builds: the inverse of the alphabet, 0 for the pad, and a mark for every other byte. */
  function Value(c: Byte): (v: Byte)
    ensures v == INVALID || v < 64
  {
    if 'A' as int <= c <= 'Z' as int then c - 'A' as int
    else if 'a' as int <= c <= 'z' as int then c - 'a' as int + 26
    else if '0' as int <= c <= '9' as int then c - '0' as int + 52
    else if c == '+' as int then 62
    else if c == '/' as int then 63
    else if c == PAD then 0
    else INVALID
  }

  lemma ValueOfTable(v: nat)
    requires v < 64
    ensures Value(Table(v)) == v
  {
  }

  // The alphabet, as in table 1 of RFC 4648, section 4.
  const UPPER: string := "ABCDEFGHIJKLMNOPQRSTUVWXYZ"
  const LOWER: string := "abcdefghijklmnopqrstuvwxyz"
  const DIGITS: string := "0123456789"
  const ALPHABET: string := UPPER + LOWER + DIGITS + "+/"

  lemma UpperIs(v: nat)
    requires v < 26
    ensures |UPPER| == 26 && UPPER[v] as int == 'A' as int + v
  {
  }

  lemma LowerIs(v: nat)
    requires v < 26
    ensures |LOWER| == 26 && LOWER[v] as int == 'a' as int + v
  {
  }

  lemma DigitIs(v: nat)
    requires v < 10
    ensures |DIGITS| == 10 && DIGITS[v] as int == '0' as int + v
  {
  }

  /** The letter of a value is the character of the alphabet at that place. */
  lemma TableIsAlphabet(v: nat)
    requires v < 64
    ensures |ALPHABET| == 64 && Table(v) == ALPHABET[v] as int
  {
    UpperIs(0);
    LowerIs(0);
    DigitIs(0);
    hide UPPER, LOWER, DIGITS;
    if v < 26 { UpperIs(v); } else if v < 52 { LowerIs(v - 26); } else if v < 62 { DigitIs(v - 52); }
  }

  /** The length of the encoding with its NUL, without regard to the width of size_t. */
  function TrueLen(n: nat): nat {
    if n == 0 then 1 else 1 + ((n - 1) / 3 + 1) * 4
  }

  /** conv-base64.c sid_conv_base64_encoded_len, in 64-bit arithmetic */
  function EncodedLen(n: nat): (r: nat)
    requires n < SIZE_MAX1
    ensures r == if TrueLen(n) < SIZE_MAX1 then TrueLen(n) else 0
  {
    if n == 0 then 1
    else
      var out := (1 + ((n - 1) / 3 + 1) * 4 % SIZE_MAX1) % SIZE_MAX1;
      if out < n then 0 else out
  }

  /** Three bytes as four letters, and the one or two bytes that may be left at the end. */
  function Group(a: Byte, b: Byte, c: Byte): (r: seq<Byte>)
    ensures |r| == 4
  {
    [Table(a / 4), Table(a % 4 * 16 + b / 16), Table(b % 16 * 4 + c / 64), Table(c % 64)]
  }

  function Tail(s: seq<Byte>): (r: seq<Byte>)
    requires 1 <= |s| <= 2
    ensures |r| == 4
  {
    if |s| == 1 then [Table(s[0] / 4), Table(s[0] % 4 * 16), PAD, PAD]
    else [Table(s[0] / 4), Table(s[0] % 4 * 16 + s[1] / 16), Table(s[1] % 16 * 4), PAD]
  }

  function Encode(s: seq<Byte>): seq<Byte> {
    if s == [] then []
    else if |s| < 3 then Tail(s)
    else Group(s[0], s[1], s[2]) + Encode(s[3..])
  }

  /** The four letters of a group are the numerals of its 24-bit value to the base 64. */
  lemma GroupIsNumerals(a: Byte, b: Byte, c: Byte)
    ensures var n := a * 0x10000 + b * 0x100 + c;
      Group(a, b, c) == [Table(n / 0x40000), Table(n / 0x1000 % 64), Table(n / 64 % 64), Table(n % 64)]
  {
    hide Table;
    var n := a * 0x10000 + b * 0x100 + c;
    var n1, n2 := a * 4 + b / 64, a * 0x400 + b * 4 + c / 64;
    assert n / 64 == n2 && n2 / 64 == a * 16 + b / 16 && (a * 16 + b / 16) / 64 == a / 4;
    assert n / 0x1000 == n2 / 64 && n / 0x40000 == n2 / 64 / 64;
  }

  /** One byte left gives the numerals of its 12-bit value and two pads, two bytes those of their 18-bit value and one pad. */
  lemma TailIsNumerals(s: seq<Byte>)
    requires 1 <= |s| <= 2
    ensures |s| == 1 ==> (var n := s[0] as int * 16; Tail(s) == [Table(n / 64), Table(n % 64), PAD, PAD])
    ensures |s| == 2 ==>
      (var n := (s[0] as int * 0x100 + s[1]) * 4; Tail(s) == [Table(n / 0x1000), Table(n / 64 % 64), Table(n % 64), PAD])
  {
    hide Table;
    if |s| == 2 {
      var n := (s[0] as int * 0x100 + s[1]) * 4;
      assert n / 64 == s[0] as int * 16 + s[1] / 16 && n / 0x1000 == n / 64 / 64;
    }
  }

  /** Test vectors of RFC 4648, section 10, and the two letters that are neither letter nor digit. */
  lemma TestVectors()
    ensures Encode(['f' as int]) == ['Z' as int, 'g' as int, '=' as int, '=' as int]
    ensures Encode(['f' as int, 'o' as int]) == ['Z' as int, 'm' as int, '8' as int, '=' as int]
    ensures Encode(['f' as int, 'o' as int, 'o' as int]) == ['Z' as int, 'm' as int, '9' as int, 'v' as int]
    ensures Encode([251, 255, 191]) == ['+' as int, '/' as int, '+' as int, '/' as int]
  {
  }

  lemma TrueLenStep(n: nat)
    requires n >= 3
    ensures TrueLen(n) == TrueLen(n - 3) + 4
  {
  }

  lemma {:induction false} EncodeLength(s: seq<Byte>)
    ensures |Encode(s)| + 1 == TrueLen(|s|) && |Encode(s)| % 4 == 0
  {
    hide Group, Tail, TrueLen;
    if s == [] || |s| < 3 {
      ShortLen(|s|);
    } else {
      EncodeLength(s[3..]);
      TrueLenStep(|s|);
      FourMore(|Encode(s[3..])|);
    }
  }

  lemma ShortLen(n: nat)
    requires n < 3
    ensures TrueLen(n) == if n == 0 then 1 else 5
  {
  }

  lemma FourMore(n: nat)
    ensures (n + 4) % 4 == n % 4
  {
  }

  /** conv-base64.c sid_conv_base64_encode: exactly the encoding and its NUL are written, or nothing. */
  method EncodeTo(src: seq<Byte>, dest: array<Byte>) returns (r: int)
    requires |src| < SIZE_MAX1
    modifies dest
    ensures r == if TrueLen(|src|) < SIZE_MAX1 && TrueLen(|src|) <= dest.Length then 0 else -EINVAL
    ensures r == 0 ==> dest[..TrueLen(|src|)] == Encode(src) + [0]
    ensures forall k :: 0 <= k < dest.Length && (r == 0 ==> k >= TrueLen(|src|)) ==> dest[k] == old(dest[k])
  {
    hide Table, Group, Tail, TrueLen, Encode;
    var checkSize := EncodedLen(|src|);
    SomeLen(|src|);
    if checkSize == 0 || checkSize > dest.Length { return -EINVAL; }
    EncodeLength(src);
    var inp, pos := 0, 0;
    assert src[0..] == src && dest[..0] + Encode(src) == Encode(src);
    while |src| - inp >= 3
      invariant inp <= |src| && pos + |Encode(src[inp..])| == |Encode(src)|
      invariant dest[..pos] + Encode(src[inp..]) == Encode(src)
      invariant forall k :: |Encode(src)| < k < dest.Length ==> dest[k] == old(dest[k])
    {
      EncodeGroup(src, inp);
      PutFour(dest, pos, Group(src[inp], src[inp + 1], src[inp + 2]));
      inp, pos := inp + 3, pos + 4;
    }
    EncodeRest(src[inp..]);
    if |src| - inp > 0 {
      PutFour(dest, pos, Tail(src[inp..]));
      pos := pos + 4;
    }
    assert dest[..pos] == Encode(src);
    dest[pos] := 0;
    assert dest[..pos + 1] == dest[..pos] + [0];
    r := 0;
  }

  lemma SomeLen(n: nat)
    ensures TrueLen(n) >= 1
  {
  }

  lemma EncodeGroup(s: seq<Byte>, i: nat)
    requires i + 3 <= |s|
    ensures Encode(s[i..]) == Group(s[i], s[i + 1], s[i + 2]) + Encode(s[i + 3..])
  {
    assert s[i..][3..] == s[i + 3..];
  }

  lemma EncodeRest(s: seq<Byte>)
    requires |s| < 3
    ensures Encode(s) == if s == [] then [] else Tail(s)
  {
  }

  /** Four letters stored one after the other. */
  method PutFour(dest: array<Byte>, pos: nat, four: seq<Byte>)
    requires |four| == 4 && pos + 4 <= dest.Length
    modifies dest
    ensures dest[..pos + 4] == old(dest[..pos]) + four
    ensures forall k :: pos + 4 <= k < dest.Length ==> dest[k] == old(dest[k])
  {
    dest[pos], dest[pos + 1], dest[pos + 2], dest[pos + 3] := four[0], four[1], four[2], four[3];
  }

  /** The bytes the decoder does not skip. */
  function Strip(s: seq<Byte>): seq<Byte> {
    if s == [] then [] else (if Value(s[0]) == INVALID then [] else [s[0]]) + Strip(s[1..])
  }

  function Pads(t: seq<Byte>): nat {
    if t == [] then 0 else (if t[0] == PAD then 1 else 0) + Pads(t[1..])
  }

  /** Four letters as three bytes. Bits shifted out of a byte are lost. */
  function Bytes(t: seq<Byte>): (r: seq<Byte>)
    requires |t| == 4 && forall c :: c in t ==> Value(c) != INVALID
    ensures |r| == 3
  {
    var a, b, c, d := Value(t[0]), Value(t[1]), Value(t[2]), Value(t[3]);
    [a * 4 + b / 16, b % 16 * 16 + c / 4, c % 4 * 64 + d]
  }

  /** Decoding letters: a group with one or two pads is the last, and what follows it is not looked at. */
  function DecodeGroups(t: seq<Byte>): Option<seq<Byte>>
    requires |t| % 4 == 0 && forall c :: c in t ==> Value(c) != INVALID
  {
    if t == [] then Some([])
    else
      var g := t[..4];
      var p := Pads(g);
      assert forall c :: c in g ==> c in t;
      if p > 2 then None
      else if p > 0 then Some(Bytes(g)[..3 - p])
      else
        assert forall c :: c in t[4..] ==> c in t;
        var rest := DecodeGroups(t[4..]);
        if rest.None? then None else Some(Bytes(g) + rest.value)
  }

  lemma {:induction false} StripValid(s: seq<Byte>)
    ensures forall c :: c in Strip(s) ==> Value(c) != INVALID
    ensures |Strip(s)| <= |s|
  {
    if s != [] { StripValid(s[1..]); }
  }

  function Decode(s: seq<Byte>): Option<seq<Byte>> {
    StripValid(s);
    if |Strip(s)| == 0 || |Strip(s)| % 4 != 0 then None else DecodeGroups(Strip(s))
  }

  /** The six-bit values put together again. */
  lemma SixBits(a: Byte, b: Byte, c: Byte)
    ensures var v0, v1, v2, v3 := a / 4, a % 4 * 16 + b / 16, b % 16 * 4 + c / 64, c % 64;
      && v0 < 64 && v1 < 64 && v2 < 64 && v3 < 64
      && v0 * 4 + v1 / 16 == a && v1 % 16 * 16 + v2 / 4 == b && v2 % 4 * 64 + v3 == c
  {
    Shifted(a % 4, b / 16, 16);
    Shifted(b % 16, c / 64, 4);
  }

  lemma Shifted(hi: nat, lo: nat, m: nat)
    requires lo < m && (m == 4 || m == 16)
    ensures (hi * m + lo) / m == hi && (hi * m + lo) % m == lo
  {
    if m == 4 {
      assert (hi * 4 + lo) / 4 == hi;
    } else {
      assert (hi * 16 + lo) / 16 == hi;
    }
  }

  lemma GroupDecodes(a: Byte, b: Byte, c: Byte)
    ensures var g := Group(a, b, c);
      (forall x :: x in g ==> Value(x) != INVALID) && Pads(g) == 0 && Bytes(g) == [a, b, c]
  {
    hide Table, Value;
    var g := Group(a, b, c);
    SixBits(a, b, c);
    ValueOfTable(a / 4);
    ValueOfTable(a % 4 * 16 + b / 16);
    ValueOfTable(b % 16 * 4 + c / 64);
    ValueOfTable(c % 64);
    PadsOf(g);
  }

  lemma TailDecodes(s: seq<Byte>)
    requires 1 <= |s| <= 2
    ensures var g := Tail(s);
      (forall x :: x in g ==> Value(x) != INVALID) && Pads(g) == 3 - |s| && Bytes(g)[..|s|] == s
  {
    var g := Tail(s);
    ValueOfTable(s[0] / 4);
    if |s| == 1 {
      ValueOfTable(s[0] % 4 * 16);
    } else {
      ValueOfTable(s[0] % 4 * 16 + s[1] / 16);
      ValueOfTable(s[1] % 16 * 4);
    }
    PadsOf(g);
  }

  lemma PadsOf(g: seq<Byte>)
    requires |g| == 4
    ensures Pads(g) == (if g[0] == PAD then 1 else 0) + (if g[1] == PAD then 1 else 0) +
                       (if g[2] == PAD then 1 else 0) + (if g[3] == PAD then 1 else 0)
  {
    assert Pads(g[1..]) == (if g[1] == PAD then 1 else 0) + Pads(g[1..][1..]);
    assert g[1..][1..] == g[2..];
    assert Pads(g[2..]) == (if g[2] == PAD then 1 else 0) + Pads(g[2..][1..]);
    assert g[2..][1..] == g[3..];
    assert Pads(g[3..]) == (if g[3] == PAD then 1 else 0) + Pads(g[3..][1..]);
  }

  lemma {:induction false} EncodeDecodes(s: seq<Byte>)
    ensures |Encode(s)| % 4 == 0 && forall c :: c in Encode(s) ==> Value(c) != INVALID
    ensures DecodeGroups(Encode(s)) == Some(s)
  {
    hide Group, Tail, Bytes, Pads, Table, Value;
    EncodeLength(s);
    if s == [] {
    } else if |s| < 3 {
      TailDecodes(s);
      assert Tail(s)[..4] == Tail(s);
    } else {
      EncodeDecodes(s[3..]);
      GroupDecodes(s[0], s[1], s[2]);
      var g, rest := Group(s[0], s[1], s[2]), Encode(s[3..]);
      assert (g + rest)[..4] == g && (g + rest)[4..] == rest;
      assert s == [s[0], s[1], s[2]] + s[3..];
    }
  }

  /** Decoding undoes encoding for every non-empty input, also when other bytes are mixed into the encoded text. */
  lemma RoundTrip(s: seq<Byte>, text: seq<Byte>)
    requires s != [] && Strip(text) == Encode(s)
    ensures Decode(text) == Some(s)
  {
    hide Encode, Strip;
    EncodeDecodes(s);
    EncodeLength(s);
    SomeEncoding(s);
    StripValid(text);
  }

  lemma SomeEncoding(s: seq<Byte>)
    requires s != []
    ensures Encode(s) != []
  {
  }

  /** The empty input is the exception: it has the empty encoding, and nothing decodes to it that way. */
  lemma EmptyIsRefused(text: seq<Byte>)
    requires Strip(text) == Encode([])
    ensures Decode(text) == None
  {
  }

  /** The encoder's own output, with its NUL, decodes to its input. */
  lemma OutputDecodes(s: seq<Byte>)
    requires s != []
    ensures Decode(Encode(s)) == Some(s) && Decode(Encode(s) + [0]) == Some(s)
  {
    EncodeDecodes(s);
    StripSame(Encode(s));
    StripSkips(Encode(s), 0);
    RoundTrip(s, Encode(s));
    RoundTrip(s, Encode(s) + [0]);
  }

  lemma {:induction false} StripSame(t: seq<Byte>)
    requires forall c :: c in t ==> Value(c) != INVALID
    ensures Strip(t) == t
  {
    if t != [] {
      StripSame(t[1..]);
      assert t == [t[0]] + t[1..];
    }
  }

  lemma {:induction false} StripSkips(t: seq<Byte>, c: Byte)
    ensures Strip(t + [c]) == Strip(t) + if Value(c) == INVALID then [] else [c]
  {
    if t == [] {
      assert (t + [c])[1..] == [];
    } else {
      assert (t + [c])[1..] == t[1..] + [c];
      StripSkips(t[1..], c);
    }
  }

  /** The decoding table, built as the decoder builds it. */
  method BuildTable() returns (dtable: array<Byte>)
    ensures fresh(dtable) && dtable.Length == 256 && forall c: Byte :: dtable[c] == Value(c)
  {
    dtable := new Byte[256](_ => INVALID);
    for i := 0 to 64
      invariant forall k :: 0 <= k < 256 ==> dtable[k] == if Value(k) < i && k != PAD then Value(k) else INVALID
    {
      TableOnce(i);
      dtable[Table(i)] := i;
    }
    dtable[PAD] := 0;
  }

  lemma TableOnce(i: nat)
    requires i < 64
    ensures Value(Table(i)) == i && forall c: Byte :: c != PAD && Value(c) == i ==> c == Table(i)
  {
  }

  /** The first loop of conv-base64.c sid_conv_base64_decode: the number of bytes that are not skipped */
  method CountLetters(src: seq<Byte>, dtable: array<Byte>) returns (count: nat)
    requires dtable.Length == 256 && forall c: Byte :: dtable[c] == Value(c)
    ensures count == |Strip(src)|
  {
    count := 0;
    assert src[..|src|] == src;
    for i := 0 to |src|
      invariant count == |Strip(src[..i])|
    {
      assert src[..i + 1] == src[..i] + [src[i]];
      StripSkips(src[..i], src[i]);
      if dtable[src[i]] != INVALID { count := count + 1; }
    }
  }

  lemma PadsSnoc(t: seq<Byte>, c: Byte)
    ensures Pads(t + [c]) == Pads(t) + if c == PAD then 1 else 0
  {
    if t == [] {
      assert (t + [c])[1..] == [];
    } else {
      assert (t + [c])[1..] == t[1..] + [c];
      PadsSnoc(t[1..], c);
    }
  }

  /** What decoding the letters still to come adds to the bytes decoded so far. */
  ghost function Onto(out: seq<Byte>, rest: Option<seq<Byte>>): Option<seq<Byte>> {
    if rest.None? then None else Some(out + rest.value)
  }

  /** The three bytes of a full block. */
  method PutGroup(out: array<Byte>, pos: nat, block: array<Byte>, ghost g: seq<Byte>)
    requires pos + 3 <= out.Length && block.Length == 4 && out != block
    requires |g| == 4 && (forall x :: x in g ==> Value(x) != INVALID) && forall k :: 0 <= k < 4 ==> block[k] == Value(g[k])
    modifies out
    ensures out[..pos + 3] == old(out[..pos]) + Bytes(g)
  {
    hide *;
    ghost var done := out[..pos];
    BytesAre(g, block[0], block[1], block[2], block[3]);
    out[pos] := block[0] * 4 + block[1] / 16;
    out[pos + 1] := block[1] % 16 * 16 + block[2] / 4;
    out[pos + 2] := block[2] % 4 * 64 + block[3];
    assert out[..pos + 3] == done + Bytes(g);
  }

  /** Whether a group is followed by more, is the last, or is invalid. */
  datatype Verdict = More | Last | Invalid

  /** A full block in conv-base64.c sid_conv_base64_decode: its bytes, less its pads. */
  method EmitGroup(out: array<Byte>, pos: nat, block: array<Byte>, pad: nat, ghost g: seq<Byte>, ghost rest: seq<Byte>,
                   ghost result: Option<seq<Byte>>) returns (verdict: Verdict, next: nat)
    requires pos <= out.Length && block.Length == 4 && out != block
    requires |g| == 4 && pad == Pads(g) && forall k :: 0 <= k < 4 ==> block[k] == Value(g[k])
    requires Pending(g + rest, out[..pos], out.Length, result)
    modifies out
    ensures next <= out.Length
    ensures match verdict
            case More => pad == 0 && Pending(rest, out[..next], out.Length, result)
            case Last => result == Some(out[..next])
            case Invalid => result == None
  {
    hide *;
    NextGroup(g, rest, out[..pos], out.Length, result);
    ghost var done := out[..pos];
    PutGroup(out, pos, block, g);
    next := pos + 3;
    verdict := More;
    if pad > 0 {
      if pad > 2 { return Invalid, next; }
      next := next - pad;
      verdict := Last;
      assert out[..next] == done + Bytes(g)[..3 - pad];
    }
  }

  /** conv-base64.c sid_conv_base64_decode */
  method DecodeFrom(src: seq<Byte>) returns (r: Option<seq<Byte>>)
    ensures r == Decode(src)
  {
    hide *;
    Starts(src);
    var dtable := BuildTable();
    var count := CountLetters(src, dtable);
    if count == 0 || count % 4 != 0 { return None; }
    var out := new Byte[count / 4 * 3];
    var pos: nat := 0;
    var block := new Byte[4];
    var pad: nat := 0;
    count := 0;
    ghost var letters: seq<Byte> := [];
    assert src[0..] == src && letters + Strip(src) == Strip(src) && out[..0] == [];
    for i := 0 to |src|
      invariant forall c: Byte :: dtable[c] == Value(c)
      invariant count == |letters| < 4 && pad == Pads(letters) && pos <= out.Length
      invariant forall k :: 0 <= k < count ==> block[k] == Value(letters[k])
      invariant Pending(letters + Strip(src[i..]), out[..pos], out.Length, Decode(src))
    {
      StripStep(src, i, letters);
      var tmp := dtable[src[i]];
      if tmp == INVALID { continue; }
      if src[i] == PAD { pad := pad + 1; }
      PadsSnoc(letters, src[i]);
      block[count] := tmp;
      count := count + 1;
      letters := letters + [src[i]];
      if count == 4 {
        var verdict;
        verdict, pos := EmitGroup(out, pos, block, pad, letters, Strip(src[i + 1..]), Decode(src));
        count := 0;
        match verdict {
          case Invalid => return None;
          case Last => return Some(out[..pos]);
          case More =>
        }
        letters := [];
        NoPads();
        assert [] + Strip(src[i + 1..]) == Strip(src[i + 1..]);
      }
    }
    StripEnd(src, letters);
    NoneLeft(letters, out[..pos], out.Length, Decode(src));
    return Some(out[..pos]);
  }

  /** The letters still to come and the bytes so far make up the result and fill the output. */
  ghost predicate Pending(t: seq<Byte>, done: seq<Byte>, size: nat, result: Option<seq<Byte>>) {
    && |t| % 4 == 0 && (forall c :: c in t ==> Value(c) != INVALID)
    && |done| + |t| / 4 * 3 == size
    && Onto(done, DecodeGroups(t)) == result
  }

  lemma NoPads()
    ensures Pads([]) == 0
  {
  }

  lemma StripEnd(src: seq<Byte>, letters: seq<Byte>)
    ensures letters + Strip(src[|src|..]) == letters
  {
  }

  lemma Starts(src: seq<Byte>)
    ensures Pads([]) == 0
    ensures var n := |Strip(src)|;
      if n == 0 || n % 4 != 0 then Decode(src) == None else Pending(Strip(src), [], n / 4 * 3, Decode(src))
  {
    hide Value;
    StripValid(src);
    var r := if |Strip(src)| % 4 == 0 then DecodeGroups(Strip(src)) else None;
    if r.Some? { assert [] + r.value == r.value; }
  }

  lemma StripStep(src: seq<Byte>, i: nat, letters: seq<Byte>)
    requires i < |src|
    ensures letters + Strip(src[i..]) ==
            if Value(src[i]) == INVALID then letters + Strip(src[i + 1..]) else letters + [src[i]] + Strip(src[i + 1..])
  {
    hide Value;
    assert src[i..][1..] == src[i + 1..];
    assert letters + ([src[i]] + Strip(src[i + 1..])) == letters + [src[i]] + Strip(src[i + 1..]);
    assert [] + Strip(src[i + 1..]) == Strip(src[i + 1..]);
  }

  lemma BytesAre(g: seq<Byte>, a: Byte, b: Byte, c: Byte, d: Byte)
    requires |g| == 4 && (forall x :: x in g ==> Value(x) != INVALID)
    requires a == Value(g[0]) && b == Value(g[1]) && c == Value(g[2]) && d == Value(g[3])
    ensures a < 64 && b < 64 && c < 64 && d < 64
    ensures Bytes(g) == [a * 4 + b / 16, b % 16 * 16 + c / 4, c % 4 * 64 + d]
  {
    assert g[0] in g && g[1] in g && g[2] in g && g[3] in g;
  }

  lemma NextGroup(g: seq<Byte>, rest: seq<Byte>, done: seq<Byte>, size: nat, result: Option<seq<Byte>>)
    requires |g| == 4 && Pending(g + rest, done, size, result)
    ensures forall x :: x in g ==> Value(x) != INVALID
    ensures |done| + 3 <= size
    ensures Pads(g) == 0 ==> Pending(rest, done + Bytes(g), size, result)
    ensures 0 < Pads(g) <= 2 ==> result == Some(done + Bytes(g)[..3 - Pads(g)])
    ensures Pads(g) > 2 ==> result == None
  {
    hide Value, Bytes, Pads;
    var t := g + rest;
    assert t[..4] == g && t[4..] == rest;
    assert forall x :: x in g ==> x in t;
    assert forall x :: x in rest ==> x in t;
    if Pads(g) == 0 && DecodeGroups(rest).Some? {
      assert done + (Bytes(g) + DecodeGroups(rest).value) == done + Bytes(g) + DecodeGroups(rest).value;
    }
  }

  lemma NoneLeft(t: seq<Byte>, done: seq<Byte>, size: nat, result: Option<seq<Byte>>)
    requires |t| < 4 && Pending(t, done, size, result)
    ensures result == Some(done)
  {
    assert t == [];
    assert done + [] == done;
  }
}
