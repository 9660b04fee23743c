/** Frames: a size prefix and a payload. Sending through linear and vector buffers, whatever part of the data each write
    takes, and reading them back through a linear buffer, whatever part of the data each read gives. */
module Framing {
  import opened Buffers

  type Byte = b: int | 0 <= b < 256

  const PREFIX_LEN: nat := 4
  const U32: nat := 0x1_0000_0000
  const EINTR := 4
  const EAGAIN := 11
  const EINVAL := 22
  const ERANGE := 34
  const EBADE := 52
  const ENODATA := 61
  const EBADMSG := 74

  /** A 32-bit size, low byte first; a larger size is truncated. */
  function Encode(n: nat): (r: seq<Byte>)
    ensures |r| == PREFIX_LEN
  {
    [n % 256, n / 256 % 256, n / 256 / 256 % 256, n / 256 / 256 / 256 % 256]
  }

  function Decode(s: seq<Byte>): (r: nat)
    requires |s| == PREFIX_LEN
    ensures r < U32
  {
    (s[0] as int) + 256 * ((s[1] as int) + 256 * ((s[2] as int) + 256 * (s[3] as int)))
  }

  /** The prefix is faithful exactly for sizes that fit it. */
  lemma DecodeEncode(n: nat)
    ensures Decode(Encode(n)) == n % U32
    ensures Decode(Encode(n)) == n <==> n < U32
  {
    var q := n / 256 / 256 / 256 / 256;
    assert n == Decode(Encode(n)) + U32 * q;
  }

  /** The low byte comes first. */
  lemma LowByteFirst(n: nat)
    ensures Encode(n)[0] == n % 256 && Encode(n)[1] == n / 0x100 % 256
    ensures Encode(n)[2] == n / 0x1_0000 % 256 && Encode(n)[3] == n / 0x100_0000 % 256
  {
    assert n / 256 / 256 == n / 0x1_0000;
    assert n / 256 / 256 / 256 == n / 0x100_0000;
  }

  /** The bytes of a frame. */
  function Frame(payload: seq<Byte>): (r: seq<Byte>)
    ensures |r| == PREFIX_LEN + |payload|
  {
    Encode(PREFIX_LEN + |payload|) + payload
  }

  function Frames(payloads: seq<seq<Byte>>): seq<Byte> {
    if payloads == [] then [] else Frame(payloads[0]) + Frames(payloads[1..])
  }

  function Concat(items: seq<seq<Byte>>): seq<Byte> {
    if items == [] then [] else items[0] + Concat(items[1..])
  }

  /** What a coming write call will do, and what a coming read call will do. */
  datatype WriteStep = Takes(n: nat) | WriteFails(errno: int)
  datatype ReadStep = Gives(n: nat) | ReadFails(errno: int)

  function Min(a: nat, b: nat): nat {
    if a < b then a else b
  }

  /** A byte stream between two descriptors. The schedules say how much each call moves and which calls fail; when they
      are used up, calls move all they can. */
  class Channel {
    var writeSteps: seq<WriteStep>
    var readSteps: seq<ReadStep>
    var inFlight: seq<Byte>
    var closed: bool
    ghost var sent: seq<Byte>

    constructor (ws: seq<WriteStep>, rs: seq<ReadStep>)
      ensures writeSteps == ws && readSteps == rs && inFlight == [] && sent == [] && !closed
    {
      writeSteps, readSteps, inFlight, sent, closed := ws, rs, [], [], false;
    }

    /** write(2), writev(2) */
    method Write(bytes: seq<Byte>) returns (n: int)
      modifies this`writeSteps, this`inFlight, this`sent
      ensures n <= |bytes|
      ensures n >= 0 ==> inFlight == old(inFlight) + bytes[..n] && sent == old(sent) + bytes[..n]
      ensures n < 0 ==> inFlight == old(inFlight) && sent == old(sent)
      ensures if old(writeSteps) == [] then writeSteps == [] && n == |bytes| else writeSteps == old(writeSteps)[1..]
      ensures n < 0 ==> old(writeSteps) != [] && old(writeSteps)[0].WriteFails? && n == -old(writeSteps)[0].errno
    {
      n := |bytes|;
      if writeSteps != [] {
        var w := writeSteps[0];
        writeSteps := writeSteps[1..];
        match w
        case Takes(k) => n := Min(k, |bytes|);
        case WriteFails(e) => if e > 0 { return -e; } else { n := 0; }
      }
      inFlight := inFlight + bytes[..n];
      sent := sent + bytes[..n];
    }

    /** read(2): something, if there is room and data, or an error; with nothing to read it is EAGAIN while the stream is
        open, and the end of the stream afterwards. */
    method Read(max: nat) returns (n: int, bytes: seq<Byte>)
      modifies this`readSteps, this`inFlight
      ensures n >= 0 ==> |bytes| == n <= max && n <= |old(inFlight)| && bytes == old(inFlight)[..n] && inFlight == old(inFlight)[n..]
      ensures n < 0 ==> bytes == [] && inFlight == old(inFlight)
      ensures n == 0 <==> max == 0 || (old(inFlight) == [] && closed)
      ensures readSteps == old(readSteps) || (old(readSteps) != [] && readSteps == old(readSteps)[1..])
      ensures max > 0 && old(inFlight) != [] && readSteps == old(readSteps) ==> n > 0
    {
      bytes := [];
      if max == 0 { return 0, []; }
      if inFlight == [] { return if closed then 0 else -EAGAIN, []; }
      n := Min(max, |inFlight|);
      if readSteps != [] {
        var step := readSteps[0];
        readSteps := readSteps[1..];
        match step
        case Gives(k) => n := if k == 0 then 1 else Min(k, n);
        case ReadFails(e) => return if e <= 0 then -EAGAIN else -e, [];
      }
      bytes := inFlight[..n];
      inFlight := inFlight[n..];
    }
  }

  ghost predicate LinearOk(b: Buf<Byte>)
    reads b
  {
    b.Valid() && b.prefixLen == PREFIX_LEN && PREFIX_LEN <= b.mem.Length
  }

  /** What sending a linear buffer puts on the wire: nothing when nothing was ever added. */
  ghost function LinearWire(b: Buf<Byte>): seq<Byte>
    requires LinearOk(b)
    reads b, b.mem
  {
    if b.used == 0 then [] else Frame(b.Items())
  }

  /** buf-type-linear.c _update_size_prefix */
  method StampLinear(b: Buf<Byte>)
    requires LinearOk(b) && b.used > 0
    modifies b.mem
    ensures b.mem[..b.used] == LinearWire(b) && LinearWire(b) == old(LinearWire(b))
  {
    ghost var items := b.Items();
    Copy(b.mem, 0, Encode(b.used));
    assert b.Items() == items;
    assert b.mem[..b.used] == b.mem[0..PREFIX_LEN] + b.mem[PREFIX_LEN..b.used];
  }

  /** buf-type-linear.c _buffer_linear_write in size prefix mode */
  method LinearWrite(b: Buf<Byte>, ch: Channel, pos: nat) returns (n: int)
    requires LinearOk(b)
    modifies b.mem, ch`writeSteps, ch`inFlight, ch`sent
    ensures LinearWire(b) == old(LinearWire(b))
    ensures Written(n, LinearWire(b), pos, old(ch.writeSteps), ch.writeSteps, old(ch.sent), ch.sent, old(ch.inFlight), ch.inFlight)
  {
    if pos == b.used { return -ENODATA; }
    if pos > b.used { return -ERANGE; }
    StampLinear(b);
    ghost var f := LinearWire(b);
    n := ch.Write(b.mem[pos..b.used]);
    assert b.mem[pos..b.used] == b.mem[..b.used][pos..];
    Piece(f, pos, n);
  }

  lemma Piece(f: seq<Byte>, pos: nat, n: int)
    requires pos <= |f| && n <= |f[pos..]|
    ensures n >= 0 ==> f[pos..][..n] == f[pos..pos + n]
  {
  }

  /** One write at position `pos` of a frame `f`: the end is reported as such, and otherwise the channel takes the next
      bytes of the frame, or fails and takes none. */
  ghost predicate Written(n: int, f: seq<Byte>, pos: nat, ws: seq<WriteStep>, ws2: seq<WriteStep>, sent: seq<Byte>, sent2: seq<Byte>,
                          flight: seq<Byte>, flight2: seq<Byte>) {
    if pos >= |f| then n == (if pos == |f| then -ENODATA else -ERANGE) && sent2 == sent && flight2 == flight && ws2 == ws
    else
      && n <= |f| - pos
      && (n >= 0 ==> sent2 == sent + f[pos..pos + n] && flight2 == flight + f[pos..pos + n])
      && (n < 0 ==> sent2 == sent && flight2 == flight && ws != [] && ws[0].WriteFails? && n == -ws[0].errno)
      && (if ws == [] then ws2 == [] && n == |f| - pos else ws2 == ws[1..])
  }

  /** A vector buffer in size prefix mode: slot 0 is the prefix. Items are pointers to byte blocks, seen as the blocks. */
  ghost predicate VectorOk(b: Buf<seq<Byte>>)
    reads b, b.mem
  {
    b.Valid() && b.prefixLen == 1 && b.mem.Length > 0 && |b.mem[0]| == PREFIX_LEN
  }

  ghost function VectorWire(b: Buf<seq<Byte>>): seq<Byte>
    requires VectorOk(b)
    reads b, b.mem
  {
    if b.used == 0 then [] else Frame(Concat(b.Items()))
  }

  /** The prefix in slot 0 is the size of the frame. */
  ghost predicate Stamped(b: Buf<seq<Byte>>)
    requires VectorOk(b)
    reads b, b.mem
  {
    b.used > 0 && Concat(b.mem[..b.used]) == VectorWire(b)
  }

  lemma {:induction false} ConcatAppend(a: seq<seq<Byte>>, b: seq<seq<Byte>>)
    ensures Concat(a + b) == Concat(a) + Concat(b)
  {
    if a == [] {
      assert a + b == b;
    } else {
      assert (a + b)[1..] == a[1..] + b;
      ConcatAppend(a[1..], b);
    }
  }

  lemma ConcatOne(x: seq<Byte>)
    ensures Concat([x]) == x
  {
    assert [x][1..] == [];
  }

  /** buf-type-vector.c _update_size_prefix at position 0 */
  method StampVector(b: Buf<seq<Byte>>)
    requires VectorOk(b) && b.used > 0
    modifies b.mem
    ensures VectorOk(b) && Stamped(b) && VectorWire(b) == old(VectorWire(b))
  {
    ghost var items := b.Items();
    var size := 0;
    for i := 0 to b.used
      invariant size == |Concat(b.mem[..i])|
      invariant b.mem[..] == old(b.mem[..])
    {
      assert b.mem[..i + 1] == b.mem[..i] + [b.mem[i]];
      ConcatAppend(b.mem[..i], [b.mem[i]]);
      ConcatOne(b.mem[i]);
      size := size + |b.mem[i]|;
    }
    assert b.mem[..b.used] == [b.mem[0]] + items;
    ConcatAppend([b.mem[0]], items);
    ConcatOne(b.mem[0]);
    b.mem[0] := Encode(size);
    assert b.Items() == items;
    assert b.mem[..b.used] == [b.mem[0]] + items;
    ConcatAppend([b.mem[0]], items);
    ConcatOne(b.mem[0]);
  }

  /** Where position `pos` of the concatenated blocks lies: in block `i`, `off` bytes in; `i` is |blocks| at or past the end. */
  ghost predicate At(blocks: seq<seq<Byte>>, pos: nat, i: nat, off: nat) {
    && i <= |blocks| && pos == |Concat(blocks[..i])| + off
    && (i < |blocks| ==> off < |blocks[i]|)
  }

  lemma AtMeans(blocks: seq<seq<Byte>>, pos: nat, i: nat, off: nat)
    requires At(blocks, pos, i, off)
    ensures i == |blocks| ==> pos == |Concat(blocks)| + off
    ensures i < |blocks| ==> pos < |Concat(blocks)| && blocks[i][off..] + Concat(blocks[i + 1..]) == Concat(blocks)[pos..]
  {
    if i == |blocks| {
      assert blocks[..i] == blocks;
    } else {
      var front, x, back := blocks[..i], blocks[i], blocks[i + 1..];
      assert blocks == front + ([x] + back);
      ConcatAppend(front, [x] + back);
      ConcatAppend([x], back);
      ConcatOne(x);
      assert Concat(blocks) == Concat(front) + (x + Concat(back));
      assert (x + Concat(back))[off..] == x[off..] + Concat(back);
    }
  }

  /** The search loop of buf-type-vector.c _buffer_vector_write for a position past the start. */
  method Locate(b: Buf<seq<Byte>>, pos: nat) returns (i: nat, off: nat)
    requires VectorOk(b) && b.used > 0
    ensures At(b.mem[..b.used], pos, i, off)
  {
    i, off := 0, pos;
    ghost var blocks := b.mem[..b.used];
    while i < b.used
      invariant i <= b.used && pos == |Concat(blocks[..i])| + off
    {
      if |b.mem[i]| > off { return; }
      assert blocks[..i + 1] == blocks[..i] + [blocks[i]];
      ConcatAppend(blocks[..i], [blocks[i]]);
      ConcatOne(blocks[i]);
      off := off - |b.mem[i]|;
      i := i + 1;
    }
  }

  /** buf-type-vector.c _buffer_vector_write in size prefix mode. Past the start, the block the position lies in is
      shortened for the call and restored after it. */
  method VectorWrite(b: Buf<seq<Byte>>, ch: Channel, pos: nat) returns (n: int)
    requires VectorOk(b) && (pos > 0 && b.used > 0 ==> Stamped(b))
    modifies b.mem, ch`writeSteps, ch`inFlight, ch`sent
    ensures VectorOk(b) && VectorWire(b) == old(VectorWire(b)) && (b.used > 0 ==> Stamped(b))
    ensures Written(n, VectorWire(b), pos, old(ch.writeSteps), ch.writeSteps, old(ch.sent), ch.sent, old(ch.inFlight), ch.inFlight)
  {
    if b.used == 0 { return if pos == 0 then -ENODATA else -ERANGE; }
    if pos == 0 {
      StampVector(b);
      hide Frame, Concat;
      n := ch.Write(Gather(b, 0));
      GatherAll(b);
      Piece(VectorWire(b), 0, n);
    } else {
      n := WritePast(b, ch, pos);
    }
  }

  method WritePast(b: Buf<seq<Byte>>, ch: Channel, pos: nat) returns (n: int)
    requires VectorOk(b) && pos > 0 && b.used > 0 && Stamped(b)
    modifies b.mem, ch`writeSteps, ch`inFlight, ch`sent
    ensures VectorOk(b) && VectorWire(b) == old(VectorWire(b)) && Stamped(b)
    ensures Written(n, VectorWire(b), pos, old(ch.writeSteps), ch.writeSteps, old(ch.sent), ch.sent, old(ch.inFlight), ch.inFlight)
  {
    ghost var f := VectorWire(b);
    ghost var blocks := b.mem[..b.used];
    var i, off := Locate(b, pos);
    AtMeans(blocks, pos, i, off);
    if i == b.used { return if off == 0 then -ENODATA else -ERANGE; }
    n := WriteShortened(b, ch, i, off, pos);
    WireOfBlocks(b, blocks, f);
  }

  /** The call itself, with block `i` shortened by `off` bytes while it lasts. */
  method WriteShortened(b: Buf<seq<Byte>>, ch: Channel, i: nat, off: nat, ghost pos: nat) returns (n: int)
    requires b.Valid() && i < b.used && off < |b.mem[i]|
    requires pos < |Concat(b.mem[..b.used])|
    requires b.mem[i][off..] + Concat(b.mem[..b.used][i + 1..]) == Concat(b.mem[..b.used])[pos..]
    modifies b.mem, ch`writeSteps, ch`inFlight, ch`sent
    ensures b.mem[..b.used] == old(b.mem[..b.used])
    ensures Written(n, old(Concat(b.mem[..b.used])), pos, old(ch.writeSteps), ch.writeSteps, old(ch.sent), ch.sent,
                    old(ch.inFlight), ch.inFlight)
  {
    hide Concat;
    ghost var blocks := b.mem[..b.used];
    var saved := b.mem[i];
    b.mem[i] := saved[off..];
    GatherFrom(b, blocks, i, off);
    n := ch.Write(Gather(b, i));
    b.mem[i] := saved;
    assert b.mem[..b.used] == blocks;
    Piece(Concat(blocks), pos, n);
  }

  lemma WireOfBlocks(b: Buf<seq<Byte>>, blocks: seq<seq<Byte>>, f: seq<Byte>)
    requires b.Valid() && b.prefixLen == 1 && b.used > 0 && b.mem[..b.used] == blocks
    requires |blocks[0]| == PREFIX_LEN && Concat(blocks) == f && f == Frame(Concat(blocks[1..]))
    ensures VectorOk(b) && VectorWire(b) == f && Stamped(b)
  {
    assert b.Items() == blocks[1..];
    assert b.mem[0] == blocks[0];
  }

  /** The bytes of the blocks from slot `i` on, as writev takes them. */
  function Gather(b: Buf<seq<Byte>>, i: nat): seq<Byte>
    requires b.Valid() && i <= b.used
    reads b, b.mem
  {
    Concat(b.mem[i..b.used])
  }

  lemma GatherAll(b: Buf<seq<Byte>>)
    requires VectorOk(b) && b.used > 0 && Stamped(b)
    ensures Gather(b, 0) == VectorWire(b) && VectorWire(b)[0..] == VectorWire(b)
  {
    assert b.mem[0..b.used] == b.mem[..b.used];
  }

  lemma GatherFrom(b: Buf<seq<Byte>>, blocks: seq<seq<Byte>>, i: nat, off: nat)
    requires b.Valid() && |blocks| == b.used && i < b.used && off < |blocks[i]|
    requires b.mem[..b.used] == blocks[i := blocks[i][off..]]
    ensures Gather(b, i) == blocks[i][off..] + Concat(blocks[i + 1..])
  {
    var now := blocks[i := blocks[i][off..]];
    assert b.mem[i..b.used] == now[i..];
    assert now[i..][1..] == blocks[i + 1..] && now[i..][0] == blocks[i][off..];
  }

  /** A buffer of either type, as buf.c dispatches on it. */
  datatype AnyBuf = Linear(l: Buf<Byte>) | Vector(v: Buf<seq<Byte>>)

  ghost function Object(b: AnyBuf): object {
    if b.Linear? then b.l else b.v
  }

  ghost function Memory(b: AnyBuf): set<object>
    reads Object(b)
  {
    if b.Linear? then {b.l.mem} else {b.v.mem}
  }

  ghost predicate AnyOk(b: AnyBuf)
    reads Object(b), Memory(b)
  {
    if b.Linear? then LinearOk(b.l) else VectorOk(b.v)
  }

  ghost function Wire(b: AnyBuf): seq<Byte>
    requires AnyOk(b)
    reads Object(b), Memory(b)
  {
    if b.Linear? then LinearWire(b.l) else VectorWire(b.v)
  }

  /** The stored prefix is up to date, where a later write relies on it. */
  ghost predicate AnyStamped(b: AnyBuf)
    requires AnyOk(b)
    reads Object(b), Memory(b)
  {
    b.Vector? && b.v.used > 0 ==> Stamped(b.v)
  }

  /** buf.c sid_buf_write */
  method SidBufWrite(b: AnyBuf, ch: Channel, pos: nat) returns (n: int)
    requires AnyOk(b) && (pos > 0 ==> AnyStamped(b))
    modifies Memory(b), ch`writeSteps, ch`inFlight, ch`sent
    ensures AnyOk(b) && AnyStamped(b) && Wire(b) == old(Wire(b)) && Memory(b) == old(Memory(b))
    ensures Written(n, Wire(b), pos, old(ch.writeSteps), ch.writeSteps, old(ch.sent), ch.sent, old(ch.inFlight), ch.inFlight)
  {
    match b
    case Linear(l) => n := LinearWrite(l, ch, pos);
    case Vector(v) => n := VectorWrite(v, ch, pos);
  }

  predicate Retried(w: WriteStep) {
    w.WriteFails? ==> w.errno == EAGAIN || w.errno == EINTR
  }

  /** buf.c sid_buf_write_all: whatever part each write takes, the whole frame gets onto the stream, once and in order;
      an error leaves a part of the frame there. */
  method WriteAll(b: AnyBuf, ch: Channel) returns (r: int)
    requires AnyOk(b) && forall w :: w in ch.writeSteps && w.WriteFails? ==> w.errno > 0 && w.errno != ENODATA
    modifies Memory(b), ch`writeSteps, ch`inFlight, ch`sent
    ensures AnyOk(b) && Wire(b) == old(Wire(b))
    ensures r <= 0 && ((forall w :: w in old(ch.writeSteps) ==> Retried(w)) ==> r == 0)
    ensures r == 0 ==> ch.sent == old(ch.sent) + Wire(b) && ch.inFlight == old(ch.inFlight) + Wire(b)
    ensures r < 0 ==> exists w :: w in old(ch.writeSteps) && w.WriteFails? && !Retried(w) && r == -w.errno
    ensures r < 0 ==> exists k :: 0 <= k <= |Wire(b)| && ch.sent == old(ch.sent) + Wire(b)[..k]
    ensures forall w :: w in ch.writeSteps ==> w in old(ch.writeSteps)
  {
    hide Wire, AnyOk, AnyStamped;
    ghost var f := Wire(b);
    var pos := 0;
    while true
      invariant AnyOk(b) && Wire(b) == f && Memory(b) == old(Memory(b)) && (pos > 0 ==> AnyStamped(b))
      invariant pos <= |f| && ch.sent == old(ch.sent) + f[..pos] && ch.inFlight == old(ch.inFlight) + f[..pos]
      invariant forall w :: w in ch.writeSteps ==> w in old(ch.writeSteps)
      decreases |ch.writeSteps|, |f| - pos
    {
      ghost var steps := ch.writeSteps;
      var n := SidBufWrite(b, ch, pos);
      WrittenNext(n, f, pos, steps, ch.writeSteps);
      if n < 0 {
        if n == -ENODATA { break; }
        if n == -EAGAIN || n == -EINTR { n := 0; continue; }
        assert steps[0] in old(ch.writeSteps) && !Retried(steps[0]);
        return n;
      }
      Grow(f, pos, n);
      pos := pos + n;
    }
    r := 0;
  }

  lemma Grow(f: seq<Byte>, pos: nat, n: nat)
    requires pos + n <= |f|
    ensures f[..pos] + f[pos..pos + n] == f[..pos + n] && f[..|f|] == f
  {
  }

  lemma WrittenNext(n: int, f: seq<Byte>, pos: nat, ws: seq<WriteStep>, ws2: seq<WriteStep>)
    requires exists sent, sent2, flight, flight2 :: Written(n, f, pos, ws, ws2, sent, sent2, flight, flight2)
    requires pos <= |f|
    requires forall w :: w in ws && w.WriteFails? ==> w.errno > 0 && w.errno != ENODATA
    ensures n == -ENODATA <==> pos == |f|
    ensures n <= |f| - pos || n < 0
    ensures forall w :: w in ws2 ==> w in ws
    ensures pos < |f| ==> |ws2| < |ws| || (ws == [] && n == |f| - pos)
    ensures n < 0 && pos < |f| ==> ws != [] && ws[0].WriteFails? && n == -ws[0].errno
  {
  }

  /** The prefix of a partly read frame, once it is all there. */
  function Expected(b: Buf<Byte>): (n: nat)
    requires b.used <= b.mem.Length
    reads b, b.mem
  {
    if b.used >= PREFIX_LEN then Decode(b.mem[..PREFIX_LEN]) else 0
  }

  /** buf-type-linear.c _buffer_linear_is_complete in size prefix mode */
  predicate IsComplete(b: Buf<Byte>)
    requires b.used <= b.mem.Length
    reads b, b.mem
  {
    b.used > 0 && b.used == Expected(b)
  }

  /** A reader in the middle of the frame of `payload`: what it has and what is ahead of it are that frame and the rest of
      the stream, and its memory cannot hold a byte of the rest. */
  ghost predicate Reading(b: Buf<Byte>, payload: seq<Byte>, ahead: seq<Byte>, rest: seq<Byte>)
    reads b, b.mem
  {
    && b.prefixLen == PREFIX_LEN && b.allocStep == 1 && b.limit == 0
    && |Frame(payload)| < U32
    && b.used <= |Frame(payload)| && b.used <= b.mem.Length
    && b.mem[..b.used] + ahead == Frame(payload) + rest
    && PREFIX_LEN <= b.mem.Length <= |Frame(payload)|
    && (b.used >= PREFIX_LEN ==> b.mem.Length == |Frame(payload)|)
  }

  lemma ReadingPrefix(b: Buf<Byte>, payload: seq<Byte>, ahead: seq<Byte>, rest: seq<Byte>)
    requires b.used <= b.mem.Length && b.mem[..b.used] + ahead == Frame(payload) + rest
    requires b.used <= |Frame(payload)| < U32
    ensures b.mem[..b.used] == Frame(payload)[..b.used]
    ensures b.used >= PREFIX_LEN ==> Expected(b) == |Frame(payload)|
    ensures IsComplete(b) <==> b.used == |Frame(payload)|
    ensures b.used == |Frame(payload)| ==> b.mem[PREFIX_LEN..b.used] == payload && ahead == rest
  {
    var f := Frame(payload);
    assert (b.mem[..b.used] + ahead)[..b.used] == (f + rest)[..b.used];
    assert (f + rest)[..b.used] == f[..b.used];
    if b.used >= PREFIX_LEN {
      assert b.mem[..PREFIX_LEN] == b.mem[..b.used][..PREFIX_LEN];
      assert f[..b.used][..PREFIX_LEN] == Encode(|f|);
      DecodeEncode(|f|);
    }
    if b.used == |f| {
      assert b.mem[PREFIX_LEN..b.used] == b.mem[..b.used][PREFIX_LEN..];
      assert f[..b.used] == f && f[PREFIX_LEN..] == payload;
      assert (b.mem[..b.used] + ahead)[b.used..] == ahead && (f + rest)[b.used..] == rest;
    }
  }

  lemma ReadMore(had: seq<Byte>, ahead: seq<Byte>, bytes: seq<Byte>)
    requires bytes <= ahead
    ensures had + bytes + ahead[|bytes|..] == had + ahead
  {
  }

  /** What a read of the bytes `got` returns: an error for a prefix that is too small for itself, or for memory that cannot
      grow to the frame when its size becomes known. */
  ghost function AfterRead(expected: nat, allocStep: nat, limit: nat, usedBefore: nat, room: nat, got: nat): int {
    if expected == 0 then got
    else if expected < PREFIX_LEN then -EBADE
    else if usedBefore >= PREFIX_LEN || room >= expected then got
    else if allocStep == 0 then -EXFULL
    else if limit > 0 && RoundUp(expected, allocStep) > limit then -EOVERFLOW
    else got
  }

  /** The part of the read that looks at the prefix. */
  method GrowToFrame(b: Buf<Byte>, usedBefore: nat, got: nat) returns (n: int)
    requires b.used <= b.mem.Length
    modifies b`mem
    ensures b.used <= b.mem.Length && b.mem[..b.used] == old(b.mem[..b.used])
    ensures n == AfterRead(Expected(b), b.allocStep, b.limit, usedBefore, old(b.mem).Length, got) && Expected(b) == old(Expected(b))
    ensures b.mem == old(b.mem) ||
      (fresh(b.mem) && b.allocStep > 0 && usedBefore < PREFIX_LEN <= b.used && b.mem.Length == RoundUp(Expected(b), b.allocStep))
    ensures n >= 0 && usedBefore < PREFIX_LEN <= b.used && Expected(b) > 0 ==> b.mem.Length >= Expected(b)
  {
    hide Decode;
    n := got;
    var expected := Expected(b);
    if expected > 0 {
      if expected < PREFIX_LEN { return -EBADE; }
      if usedBefore < PREFIX_LEN {
        ghost var now := b.mem[..b.used];
        var r := b.Realloc(expected, false);
        assert b.mem[..b.used] == now;
        assert b.mem[..PREFIX_LEN] == now[..PREFIX_LEN] == old(b.mem[..PREFIX_LEN]);
        if r < 0 { return r; }
      }
    }
  }

  /** buf-type-linear.c _buffer_linear_read_with_size_prefix, on any stream: what is read is appended, memory grows to the
      frame as soon as its size is known, and a stream that ends inside a frame is an error. */
  method ReadPrefixed(b: Buf<Byte>, ch: Channel) returns (n: int, ghost got: seq<Byte>)
    requires b.used <= b.mem.Length
    modifies b, b.mem, ch`readSteps, ch`inFlight
    ensures b.used == old(b.used) + |got| <= old(b.mem).Length && b.used <= b.mem.Length
    ensures b.mem[..b.used] == old(b.mem[..b.used]) + got
    ensures old(ch.inFlight) == got + ch.inFlight
    ensures old(IsComplete(b)) ==> n == -EXFULL && got == []
    ensures !old(IsComplete(b)) && got != [] ==> n == AfterRead(Expected(b), b.allocStep, b.limit, old(b.used), old(b.mem).Length, |got|)
    ensures !old(IsComplete(b)) && got == [] && (old(b.used) == old(b.mem).Length || (old(ch.inFlight) == [] && ch.closed)) ==>
      n == if b.used == 0 || b.used == Expected(b) then 0 else -EBADMSG
    ensures !old(IsComplete(b)) && got == [] && !(old(b.used) == old(b.mem).Length || (old(ch.inFlight) == [] && ch.closed)) ==> n < 0
    ensures b.mem == old(b.mem) ||
      (fresh(b.mem) && b.allocStep > 0 && old(b.used) < PREFIX_LEN <= b.used && b.mem.Length == RoundUp(Expected(b), b.allocStep))
    ensures n == |got| > 0 && old(b.used) < PREFIX_LEN <= b.used && Expected(b) > 0 ==> b.mem.Length >= Expected(b)
    ensures ch.readSteps == old(ch.readSteps) || (old(ch.readSteps) != [] && ch.readSteps == old(ch.readSteps)[1..])
    ensures !old(IsComplete(b)) && old(b.used) < old(b.mem).Length && old(ch.inFlight) != [] && ch.readSteps == old(ch.readSteps) ==>
      got != []
  {
    hide Decode, AfterRead, Expected;
    got := [];
    if IsComplete(b) { return -EXFULL, []; }
    var bytes;
    n, bytes := ch.Read(b.mem.Length - b.used);
    got := bytes;
    if n > 0 {
      var previous := b.used;
      ghost var had := b.mem[..b.used];
      Copy(b.mem, b.used, bytes);
      b.used := b.used + n;
      assert b.mem[..b.used] == had + bytes;
      n := GrowToFrame(b, previous, n);
    } else if n == 0 {
      var expected := Expected(b);
      NotYet(b);
      if (expected == 0 && b.used > 0) || (expected > 0 && b.used != expected) { n := -EBADMSG; return; }
    }
  }

  /** The same inside a frame: whatever part of the stream a read gives, the reader stays inside its frame. */
  method LinearRead(b: Buf<Byte>, ch: Channel, ghost payload: seq<Byte>, ghost ahead: seq<Byte>, ghost rest: seq<Byte>)
    returns (n: int)
    requires Reading(b, payload, ahead, rest) && ch.inFlight <= ahead
    modifies b, b.mem, ch`readSteps, ch`inFlight
    ensures old(b.used) == |Frame(payload)| ==> n == -EXFULL
    ensures n > 0 ==> n <= |old(ch.inFlight)| && b.used == old(b.used) + n && ch.inFlight == old(ch.inFlight)[n..]
    ensures n > 0 ==> Reading(b, payload, ahead[n..], rest) && ch.inFlight <= ahead[n..]
    ensures n <= 0 ==> Reading(b, payload, ahead, rest) && ch.inFlight == old(ch.inFlight) && b.used == old(b.used)
    ensures b.mem == old(b.mem) || fresh(b.mem)
    ensures old(b.used) < |Frame(payload)| && old(ch.inFlight) == [] && ch.closed ==> n == if b.used == 0 then 0 else -EBADMSG
    ensures n == 0 ==> ch.closed && old(ch.inFlight) == []
    ensures ch.readSteps == old(ch.readSteps) || (old(ch.readSteps) != [] && ch.readSteps == old(ch.readSteps)[1..])
    ensures old(b.used) < |Frame(payload)| && old(ch.inFlight) != [] && ch.readSteps == old(ch.readSteps) ==> n > 0
  {
    hide Frame, Decode, Expected;
    ghost var had, used0 := b.mem[..b.used], b.used;
    ReadingPrefix(b, payload, ahead, rest);
    ghost var got;
    n, got := ReadPrefixed(b, ch);
    assert got <= ahead;
    ReadMore(had, ahead, got);
    ReadingPrefix(b, payload, ahead[|got|..], rest);
    NotYet(b);
  }

  lemma NotYet(b: Buf<Byte>)
    requires b.used <= b.mem.Length
    ensures b.used < PREFIX_LEN ==> Expected(b) == 0
  {
  }

  /** Reading until the frame is complete, then taking its payload and resetting the buffer. */
  method ReceiveFrame(b: Buf<Byte>, ch: Channel, ghost payload: seq<Byte>, ghost rest: seq<Byte>) returns (got: seq<Byte>)
    requires Reading(b, payload, ch.inFlight, rest)
    modifies b, b.mem, ch`readSteps, ch`inFlight
    ensures got == payload && ch.inFlight == rest
    ensures b.used == 0 && fresh(b.mem) && b.mem.Length == b.initSize + PREFIX_LEN
  {
    hide Frame, Decode;
    ReadingPrefix(b, payload, ch.inFlight, rest);
    while !IsComplete(b)
      invariant Reading(b, payload, ch.inFlight, rest)
      invariant IsComplete(b) <==> b.used == |Frame(payload)|
      invariant b.mem == old(b.mem) || fresh(b.mem)
      decreases |ch.readSteps|, |ch.inFlight|
    {
      StillAhead(b, payload, ch.inFlight, rest);
      var n := LinearRead(b, ch, payload, ch.inFlight, rest);
      ReadingPrefix(b, payload, ch.inFlight, rest);
    }
    ReadingPrefix(b, payload, ch.inFlight, rest);
    got := b.mem[PREFIX_LEN..b.used];
    var r := b.Reset();
  }

  lemma StillAhead(b: Buf<Byte>, payload: seq<Byte>, ahead: seq<Byte>, rest: seq<Byte>)
    requires Reading(b, payload, ahead, rest) && b.used < |Frame(payload)|
    ensures ahead != []
  {
    assert |b.mem[..b.used] + ahead| == |Frame(payload) + rest|;
  }

  /** A message as its sender holds it: one block in a linear buffer, or blocks in a vector buffer. */
  datatype Message = One(bytes: seq<Byte>) | Many(blocks: seq<seq<Byte>>)

  function Payload(m: Message): seq<Byte> {
    match m
    case One(bytes) => bytes
    case Many(blocks) => Concat(blocks)
  }

  function Payloads(ms: seq<Message>): seq<seq<Byte>> {
    if ms == [] then [] else [Payload(ms[0])] + Payloads(ms[1..])
  }

  /** A vector buffer over the given blocks; the prefix block is allocated with the buffer. */
  method NewVector(blocks: seq<seq<Byte>>) returns (v: Buf<seq<Byte>>)
    ensures fresh(v) && fresh(v.mem) && VectorOk(v) && v.Items() == blocks && (v.used == 0 <==> blocks == [])
  {
    v := new Buf<seq<Byte>>(1, 0, 1, 0);
    v.mem[0] := Encode(0);
    for i := 0 to |blocks|
      invariant fresh(v) && fresh(v.mem) && VectorOk(v) && v.allocStep == 1 && v.limit == 0
      invariant v.Items() == blocks[..i] && (v.used == 0 <==> i == 0)
    {
      var r := v.Add([blocks[i]]);
      assert blocks[..i + 1] == blocks[..i] + [blocks[i]];
    }
    assert blocks[..|blocks|] == blocks;
  }

  /** A message sent through a new buffer of its type. */
  method Send(m: Message, ch: Channel)
    requires m.Many? ==> m.blocks != []
    requires forall w :: w in ch.writeSteps ==> Retried(w)
    modifies ch`writeSteps, ch`inFlight, ch`sent
    ensures ch.inFlight == old(ch.inFlight) + Frame(Payload(m))
    ensures forall w :: w in ch.writeSteps ==> Retried(w)
  {
    var b: AnyBuf;
    match m {
      case One(bytes) =>
        var l := new Buf<Byte>(PREFIX_LEN, 0, 1, 0);
        var r := l.Add(bytes);
        b := Linear(l);
      case Many(blocks) =>
        var v := NewVector(blocks);
        b := Vector(v);
    }
    assert forall w :: w in ch.writeSteps && w.WriteFails? ==> w.errno > 0 && w.errno != ENODATA;
    var r := WriteAll(b, ch);
  }

  lemma FramesMore(ps: seq<seq<Byte>>, p: seq<Byte>)
    ensures Frames(ps + [p]) == Frames(ps) + Frame(p)
    decreases ps
  {
    if ps == [] {
      assert ([] + [p])[1..] == [];
    } else {
      assert (ps + [p])[1..] == ps[1..] + [p];
      FramesMore(ps[1..], p);
    }
  }

  lemma {:induction false} PayloadsMore(ms: seq<Message>, m: Message)
    ensures Payloads(ms + [m]) == Payloads(ms) + [Payload(m)]
  {
    if ms == [] {
      assert (ms + [m])[1..] == [];
    } else {
      assert (ms + [m])[1..] == ms[1..] + [m];
      PayloadsMore(ms[1..], m);
    }
  }

  lemma {:induction false} PayloadsAt(ms: seq<Message>)
    ensures |Payloads(ms)| == |ms| && forall i :: 0 <= i < |ms| ==> Payloads(ms)[i] == Payload(ms[i])
  {
    if ms != [] { PayloadsAt(ms[1..]); }
  }

  /** The frames from number `i` on. */
  lemma FramesFrom(ps: seq<seq<Byte>>, i: nat)
    requires i < |ps|
    ensures Frames(ps[i..]) == Frame(ps[i]) + Frames(ps[i + 1..])
  {
    assert ps[i..][1..] == ps[i + 1..];
  }

  /** The frames a peer sends, through linear and vector buffers and any short or interrupted writes, come back as the same
      payloads under any short or failing reads. The reader may start with room for the shortest payload. */
  method Session(ms: seq<Message>, ws: seq<WriteStep>, rs: seq<ReadStep>, initSize: nat) returns (got: seq<seq<Byte>>)
    requires forall i :: 0 <= i < |ms| ==> initSize <= |Payload(ms[i])| && PREFIX_LEN + |Payload(ms[i])| < U32
    requires forall i :: 0 <= i < |ms| && ms[i].Many? ==> ms[i].blocks != []
    requires forall w :: w in ws ==> Retried(w)
    ensures got == Payloads(ms)
  {
    hide Frame, Payload;
    var ch := new Channel(ws, rs);
    for i := 0 to |ms|
      invariant ch.inFlight == Frames(Payloads(ms[..i])) && forall w :: w in ch.writeSteps ==> Retried(w)
    {
      Send(ms[i], ch);
      assert ms[..i + 1] == ms[..i] + [ms[i]];
      PayloadsMore(ms[..i], ms[i]);
      FramesMore(Payloads(ms[..i]), Payload(ms[i]));
    }
    assert ms[..|ms|] == ms;
    PayloadsAt(ms);
    ghost var ps := Payloads(ms);
    assert ps[0..] == ps;
    var b := new Buf<Byte>(PREFIX_LEN, initSize, 1, 0);
    got := [];
    for i := 0 to |ms|
      invariant fresh(b) && fresh(b.mem) && b.prefixLen == PREFIX_LEN && b.allocStep == 1 && b.limit == 0 && b.initSize == initSize
      invariant b.used == 0 && b.mem.Length == initSize + PREFIX_LEN
      invariant ch.inFlight == Frames(ps[i..]) && got == ps[..i]
    {
      FramesFrom(ps, i);
      ReadingStarts(b, ps[i], ch.inFlight, Frames(ps[i + 1..]));
      var p := ReceiveFrame(b, ch, ps[i], Frames(ps[i + 1..]));
      got := got + [p];
      assert ps[..i + 1] == ps[..i] + [ps[i]];
    }
    assert ps[..|ms|] == ps;
  }

  lemma ReadingStarts(b: Buf<Byte>, payload: seq<Byte>, ahead: seq<Byte>, rest: seq<Byte>)
    requires b.prefixLen == PREFIX_LEN && b.allocStep == 1 && b.limit == 0 && b.used == 0
    requires PREFIX_LEN + |payload| < U32 && PREFIX_LEN <= b.mem.Length <= PREFIX_LEN + |payload|
    requires ahead == Frame(payload) + rest
    ensures Reading(b, payload, ahead, rest)
  {
    assert b.mem[..0] + ahead == ahead;
  }
}
