/** What a loader reads back from the ARM64X dynamic relocations. */
module DynamicRelocsRead {
  import opened Words
  import opened Options
  import opened DynamicRelocs

  /** What the encoding keeps of an entry. */
  function Canonical(e: Entry): Entry {
    match e.kind
    case ZeroFill => Entry(ZeroFill, e.size, e.offset, 0)
    case Value => Entry(Value, e.size, e.offset, e.value % Range(e.size))
    case Delta => Entry(Delta, 0, e.offset, e.value)
  }

  /** The number of values that fit into two, four or eight bytes. */
  function Range(size: nat): nat {
    if size == 2 then 0x1_0000 else if size == 4 then 0x1_0000_0000 else 0x1_0000_0000_0000_0000
  }

  function AllCanonical(es: seq<Entry>): (r: seq<Entry>)
    ensures |r| == |es| && forall i :: 0 <= i < |es| ==> r[i] == Canonical(es[i])
  {
    seq(|es|, i requires 0 <= i < |es| => Canonical(es[i]))
  }

  // ------------------------------------------------------------------ the loader

  function PowerOfTwo(x: nat): nat {
    if x == 0 then 1 else if x == 1 then 2 else if x == 2 then 4 else 8
  }

  /** An entry, given its header and what follows, and the number of bytes after the header. */
  function ReadFixup(header: nat, page: nat, payload: seq<byte>): Option<(Entry, nat)> {
    var offset, code, extra := page + header % 0x1000, header / 0x1000 % 4, header / 0x4000;
    var size := PowerOfTwo(extra);
    if code == 0 then Some((Entry(ZeroFill, size, offset, 0), 0))
    else if code == 1 then
      if |payload| < size then None else Some((Entry(Value, size, offset, FromLe(payload[..size])), size))
    else if code == 2 then
      if |payload| < 2 then None
      else
        var distance := FromLe(payload[..2]) * (if extra >= 2 then 8 else 4);
        Some((Entry(Delta, 0, offset, if extra % 2 == 1 then -distance else distance), 2))
    else None
  }

  /** The entries of a block; a header of zero is padding. */
  function ReadEntries(b: seq<byte>, page: nat): Option<seq<Entry>>
    decreases |b|
  {
    if |b| < 2 || FromLe(b[..2]) == 0 then Some([])
    else
      match ReadFixup(FromLe(b[..2]), page, b[2..])
      case None => None
      case Some((e, n)) =>
        if n > |b| - 2 then None
        else
          match ReadEntries(b[2 + n..], page)
          case None => None
          case Some(es) => Some([e] + es)
  }

  /** The entries of every block. */
  function ReadBlocks(b: seq<byte>): Option<seq<Entry>>
    decreases |b|
  {
    if b == [] then Some([])
    else if |b| < 8 then None
    else
      var size := FromLe(b[4..8]);
      if size < 8 || size > |b| || FromLe(b[..4]) % 0x1000 != 0 then None
      else
        match ReadEntries(b[8..size], FromLe(b[..4]))
        case None => None
        case Some(es) =>
          match ReadBlocks(b[size..])
          case None => None
          case Some(rest) => Some(es + rest)
  }

  /** The entries of a chunk. */
  function ReadChunk(b: seq<byte>): Option<seq<Entry>> {
    if |b| < 20 || FromLe(b[..4]) != 1 || FromLe(b[8..16]) != 6 then None
    else
      var n := FromLe(b[16..20]);
      if FromLe(b[4..8]) != n + 12 || |b| != 20 + n then None else ReadBlocks(b[20..])
  }

  // ------------------------------------------------------------------ one entry

  lemma HeaderParts(e: Entry, h: nat)
    requires EntryOk(e) && h == EntryHeader(e)
    ensures 0 < h < 0x1_0000 && h % PAGE == e.offset % PAGE && h / 0x1000 % 4 == KindCode(e.kind) &&
      h / 0x4000 == Extra(e)
  {
    Fields(e.offset % PAGE, KindCode(e.kind), Extra(e), h);
  }

  lemma Fields(o: nat, k: nat, x: nat, h: nat)
    requires o < 0x1000 && k < 4 && x < 4 && h == o + k * 0x1000 + x * 0x4000
    ensures h < 0x1_0000 && h % 0x1000 == o && h / 0x1000 % 4 == k && h / 0x4000 == x
  {
    assert h / 0x1000 == k + 4 * x;
  }

  lemma Powers()
    ensures Pow256(2) == 0x1_0000 && Pow256(4) == TWO_32 && Pow256(8) == TWO_64
  {
    FourBytes();
    assert Pow256(5) == 0x100_0000_0000;
    assert Pow256(6) == 0x1_0000_0000_0000;
    assert Pow256(7) == 0x100_0000_0000_0000;
  }

  /** The scaled distance gives the delta back. */
  lemma DeltaParts(e: Entry)
    requires EntryOk(e) && e.kind == Delta
    ensures Abs(e.value) / (if e.value % 8 == 0 then 8 else 4) < 0x1_0000
    ensures Abs(e.value) / (if e.value % 8 == 0 then 8 else 4) * (if Extra(e) >= 2 then 8 else 4) == Abs(e.value)
    ensures (Extra(e) % 2 == 1) == (e.value < 0)
  {
    var unit := if e.value % 8 == 0 then 8 else 4;
    assert e.value % unit == 0;
    Units(e.value, unit);
  }

  lemma Units(v: int, unit: nat)
    requires unit == 4 || unit == 8
    requires v % unit == 0
    ensures Abs(v) / unit * unit == Abs(v)
  {
    assert Abs(v) % unit == 0;
  }

  /** One entry reads back, whatever follows it. */
  lemma FixupReads(e: Entry, page: nat, rest: seq<byte>)
    requires EntryOk(e) && page == PageOf(e)
    ensures ReadFixup(EntryHeader(e), page, Payload(e) + rest) == Some((Canonical(e), |Payload(e)|))
  {
    HeaderParts(e, EntryHeader(e));
    var p := Payload(e);
    assert (p + rest)[..|p|] == p;
    match e.kind
    case ZeroFill =>
    case Value =>
      LeRoundTrip(e.value % TWO_64, e.size);
      ValueFits(e.value, e.size);
    case Delta =>
      DeltaParts(e);
      ReadsTwo(Abs(e.value) / (if e.value % 8 == 0 then 8 else 4));
  }

  lemma ValueFits(v: int, size: nat)
    requires size == 2 || size == 4 || size == 8
    ensures v % TWO_64 % Pow256(size) == v % Range(size)
  {
    Powers();
    var q, r := v / 0x1_0000_0000_0000_0000, v % 0x1_0000_0000_0000_0000;
    if size == 2 {
      LowTwo(v, q * 0x1_0000_0000_0000, r);
    } else if size == 4 {
      LowFour(v, q * 0x1_0000_0000, r);
    }
  }

  lemma LowTwo(v: int, q: int, r: nat)
    requires v == q * 0x1_0000 + r
    ensures v % 0x1_0000 == r % 0x1_0000
  {
  }

  lemma LowFour(v: int, q: int, r: nat)
    requires v == q * 0x1_0000_0000 + r
    ensures v % 0x1_0000_0000 == r % 0x1_0000_0000
  {
  }

  /** A byte as a number. */
  function Value8(b: byte): nat { b }

  /** Numbers are stored with their low byte first. */
  lemma LowByteFirst(b: seq<byte>)
    ensures |b| == 2 ==> FromLe(b) == Value8(b[0]) + 0x100 * Value8(b[1])
    ensures |b| == 4 ==>
      FromLe(b) == Value8(b[0]) + 0x100 * Value8(b[1]) + 0x1_0000 * Value8(b[2]) + 0x100_0000 * Value8(b[3])
    ensures |b| == 8 ==>
      FromLe(b) == Value8(b[0]) + 0x100 * Value8(b[1]) + 0x1_0000 * Value8(b[2]) + 0x100_0000 * Value8(b[3])
        + 0x1_0000_0000 * (Value8(b[4]) + 0x100 * Value8(b[5]) + 0x1_0000 * Value8(b[6]) + 0x100_0000 * Value8(b[7]))
  {
    if |b| == 2 || |b| == 4 || |b| == 8 {
      TwoMore(b);
      if |b| > 2 {
        TwoMore(b[2..]);
        assert b[2..][2..] == b[4..];
        if |b| > 4 {
          TwoMore(b[4..]);
          TwoMore(b[6..]);
          assert b[4..][2..] == b[6..];
        }
      }
    }
  }

  lemma TwoMore(b: seq<byte>)
    requires |b| >= 2
    ensures FromLe(b) == Value8(b[0]) + 0x100 * Value8(b[1]) + 0x1_0000 * FromLe(b[2..])
  {
    assert b[1..][1..] == b[2..];
    assert FromLe(b[1..]) == Value8(b[1]) + 256 * FromLe(b[2..]);
  }

  lemma ReadsTwo(n: nat)
    requires n < 0x1_0000
    ensures FromLe(Le(n, 2)) == n
  {
    FourBytes();
    LeRoundTrip(n, 2);
  }

  // ------------------------------------------------------------------ one block

  lemma {:induction false} BytesFromFront(e: Entry, es: seq<Entry>)
    ensures AllBytes([e] + es) == EntryBytes(e) + AllBytes(es)
  {
    var all := [e] + es;
    if es == [] {
      OneEntry(e);
      assert all == [e];
    } else {
      var init, last := es[..|es| - 1], es[|es| - 1];
      BytesFromFront(e, init);
      assert all[..|all| - 1] == [e] + init && all[|all| - 1] == last;
      Associates(EntryBytes(e), AllBytes(init), EntryBytes(last));
    }
  }

  /** The reader takes one entry off the front. */
  lemma ReadOne(e: Entry, page: nat, rest: seq<byte>, b: seq<byte>)
    requires EntryOk(e) && page == PageOf(e) && b == EntryBytes(e) + rest
    requires ReadEntries(rest, page).Some?
    ensures ReadEntries(b, page) == Some([Canonical(e)] + ReadEntries(rest, page).value)
  {
    var h, p := EntryHeader(e), Payload(e);
    HeaderParts(e, h);
    ReadsTwo(h);
    assert b == Le(h, 2) + (p + rest);
    assert b[..2] == Le(h, 2) && b[2..] == p + rest;
    FixupReads(e, page, rest);
    assert b[2 + |p|..] == rest;
  }

  /** The entries of a block read back; the zeros after them are padding. */
  lemma {:induction false} ReadRun(es: seq<Entry>, page: nat, pad: nat, b: seq<byte>)
    requires EntriesOk(es) && b == AllBytes(es) + Zeros(pad)
    requires forall i :: 0 <= i < |es| ==> PageOf(es[i]) == page
    ensures ReadEntries(b, page) == Some(AllCanonical(es))
  {
    if es == [] {
      ReadPadding(pad, page, b);
    } else {
      var e, later := es[0], es[1..];
      var rest := AllBytes(later) + Zeros(pad);
      ReadRun(later, page, pad, rest);
      assert b == EntryBytes(e) + rest by { FrontOf(e, later, es, pad); }
      ReadOne(e, page, rest, b);
      CanonicalFront(e, later, es);
    }
  }

  lemma ReadPadding(pad: nat, page: nat, b: seq<byte>)
    requires b == AllBytes([]) + Zeros(pad)
    ensures ReadEntries(b, page) == Some(AllCanonical([]))
  {
    assert b == Zeros(pad);
    if pad >= 2 {
      ZeroHeader(b);
    }
  }

  lemma FrontOf(e: Entry, later: seq<Entry>, es: seq<Entry>, pad: nat)
    requires es != [] && e == es[0] && later == es[1..]
    ensures AllBytes(es) + Zeros(pad) == EntryBytes(e) + (AllBytes(later) + Zeros(pad))
  {
    assert es == [e] + later;
    BytesFromFront(e, later);
    Associates(EntryBytes(e), AllBytes(later), Zeros(pad));
  }

  lemma CanonicalFront(e: Entry, later: seq<Entry>, es: seq<Entry>)
    requires es != [] && e == es[0] && later == es[1..]
    ensures [Canonical(e)] + AllCanonical(later) == AllCanonical(es)
  {
  }

  lemma ZeroHeader(b: seq<byte>)
    requires |b| >= 2 && b[0] == 0 && b[1] == 0
    ensures FromLe(b[..2]) == 0
  {
    var h := b[..2];
    assert h[1..][1..] == [];
    assert FromLe(h[1..]) == 0;
  }

  // ------------------------------------------------------------------ all blocks

  /** A block in front of others. */
  lemma ReadBlock(b: seq<byte>, size: nat, page: nat, es: seq<Entry>, rest: seq<Entry>)
    requires 8 <= size <= |b| && FromLe(b[4..8]) == size && FromLe(b[..4]) == page && page % 0x1000 == 0
    requires ReadEntries(b[8..size], page) == Some(es) && ReadBlocks(b[size..]) == Some(rest)
    ensures ReadBlocks(b) == Some(es + rest)
  {
  }

  lemma ReadsFour(n: nat)
    requires n < TWO_32
    ensures FromLe(Le(n, 4)) == n
  {
    Powers();
    LeRoundTrip(n, 4);
  }

  lemma BlockReads(page: nat, es: seq<Entry>, b: seq<byte>, n: nat)
    requires EntriesOk(es) && forall i :: 0 <= i < |es| ==> PageOf(es[i]) == page
    requires b == Block(page, es) && n == |b| < TWO_32 && page < TWO_32 && page % 0x1000 == 0
    ensures ReadBlocks(b) == Some(AllCanonical(es))
  {
    var rest := BlockRest(es);
    assert b == Le(page, 4) + Le(n, 4) + rest && n == 8 + |rest| by { BlockFields(page, es); }
    BlockReadsParts(page, es, b, n, Le(page, 4), Le(n, 4), rest);
  }

  lemma BlockReadsParts(page: nat, es: seq<Entry>, b: seq<byte>, n: nat, p: seq<byte>, f: seq<byte>, rest: seq<byte>)
    requires EntriesOk(es) && forall i :: 0 <= i < |es| ==> PageOf(es[i]) == page
    requires page % 0x1000 == 0
    requires n < TWO_32 && page < TWO_32 && p == Le(page, 4) && f == Le(n, 4) && rest == BlockRest(es)
    requires b == p + f + rest && n == |b|
    ensures ReadBlocks(b) == Some(AllCanonical(es))
  {
    FieldsOf(p, f, rest, b, n);
    ReadsFour(page);
    ReadsFour(n);
    ReadRun(es, page, Align4(|AllBytes(es)|) - |AllBytes(es)|, rest);
    ReadBlock(b, n, page, AllCanonical(es), []);
    assert AllCanonical(es) + [] == AllCanonical(es);
  }

  lemma FieldsOf(p: seq<byte>, f: seq<byte>, rest: seq<byte>, b: seq<byte>, n: nat)
    requires |p| == |f| == 4 && b == p + f + rest && n == |b|
    ensures b[..4] == p && b[4..8] == f && b[8..n] == rest && b[n..] == []
  {
  }

  /** What the front of a sequence determines. */
  lemma SliceOfSum(x: seq<byte>, y: seq<byte>, b: seq<byte>, i: nat, j: nat)
    requires b == x + y && i <= j <= |x|
    ensures b[i..j] == x[i..j] && b[j..] == x[j..] + y
  {
  }

  /** The first block of several, and the rest. */
  lemma FirstBlock(x: seq<byte>, xs: seq<Entry>) returns (size: nat, page: nat, es: seq<Entry>, later: seq<Entry>)
    requires x != [] && ReadBlocks(x) == Some(xs)
    ensures 8 <= size <= |x| && FromLe(x[4..8]) == size && FromLe(x[..4]) == page && xs == es + later
    ensures page % 0x1000 == 0
    ensures ReadEntries(x[8..size], page) == Some(es) && ReadBlocks(x[size..]) == Some(later)
  {
    size, page := FromLe(x[4..8]), FromLe(x[..4]);
    es, later := ReadEntries(x[8..size], page).value, ReadBlocks(x[size..]).value;
  }

  /** Blocks read one after the other. */
  lemma {:induction false} ReadAppend(x: seq<byte>, y: seq<byte>, b: seq<byte>, xs: seq<Entry>, ys: seq<Entry>)
    requires b == x + y && ReadBlocks(x) == Some(xs) && ReadBlocks(y) == Some(ys)
    ensures ReadBlocks(b) == Some(xs + ys)
    decreases |x|
  {
    if x == [] {
      assert b == y && xs + ys == ys;
    } else {
      var size, page, es, later := FirstBlock(x, xs);
      ReadAppend(x[size..], y, x[size..] + y, later, ys);
      BlockInFront(x, y, b, size, page, es, later, ys);
    }
  }

  lemma BlockInFront(x: seq<byte>, y: seq<byte>, b: seq<byte>, size: nat, page: nat, es: seq<Entry>, later: seq<Entry>,
                     ys: seq<Entry>)
    requires b == x + y && 8 <= size <= |x| && FromLe(x[4..8]) == size && FromLe(x[..4]) == page && page % 0x1000 == 0
    requires ReadEntries(x[8..size], page) == Some(es) && ReadBlocks(x[size..] + y) == Some(later + ys)
    ensures ReadBlocks(b) == Some(es + later + ys)
  {
    Slices(x, y, b, size);
    ReadBlock(b, size, page, es, later + ys);
    assert es + (later + ys) == es + later + ys;
  }

  lemma Slices(x: seq<byte>, y: seq<byte>, b: seq<byte>, size: nat)
    requires b == x + y && 8 <= size <= |x|
    ensures b[..4] == x[..4] && b[4..8] == x[4..8] && b[8..size] == x[8..size] && b[size..] == x[size..] + y
  {
  }

  /** The blocks read back as the entries they were written from. */
  lemma {:induction false} BodyReads(es: seq<Entry>)
    requires EntriesOk(es) && |Body(es)| < TWO_32
    ensures ReadBlocks(Body(es)) == Some(AllCanonical(es))
    decreases |es|
  {
    if es == [] {
      assert AllCanonical(es) == [];
    } else {
      var start := |es| - Tail(es);
      var before, last, page := es[..start], es[start..], PageOf(es[|es| - 1]);
      var x, y := Body(before), Block(page, last);
      assert Body(es) == x + y && |y| <= |Body(es)| by { BodyLast(es, start); }
      BodyReads(before);
      BodyReadsLast(es, start, page, last, y);
      CanonicalSplit(es, start, before, last);
      ReadAppend(x, y, Body(es), AllCanonical(before), AllCanonical(last));
    }
  }

  lemma CanonicalSplit(es: seq<Entry>, start: nat, before: seq<Entry>, last: seq<Entry>)
    requires start <= |es| && before == es[..start] && last == es[start..]
    ensures AllCanonical(before) + AllCanonical(last) == AllCanonical(es)
  {
  }

  lemma BodyReadsLast(es: seq<Entry>, start: nat, page: nat, last: seq<Entry>, y: seq<byte>)
    requires es != [] && EntriesOk(es) && start == |es| - Tail(es) && page == PageOf(es[|es| - 1])
    requires last == es[start..] && y == Block(page, last) && |y| < TWO_32
    ensures ReadBlocks(y) == Some(AllCanonical(last))
  {
    PageBelow(es[|es| - 1]);
    BlockReads(page, last, y, |y|);
  }

  lemma PageBelow(e: Entry)
    requires EntryOk(e)
    ensures PageOf(e) < TWO_32 && PageOf(e) % 0x1000 == 0
  {
  }

  /** The chunk reads back, its header included. */
  lemma ChunkReads(es: seq<Entry>)
    requires EntriesOk(es) && |Body(es)| + 12 < TWO_32
    ensures ReadChunk(ChunkBytes(es)) == Some(AllCanonical(es))
  {
    var body := Body(es);
    var n := |body|;
    var m := 12 + n;
    var t := TableBytes(m, n);
    var b := t + body;
    TableReads(n, m, Le(1, 4), Le(m, 4), Le(ARM64X, 8), Le(n, 4), t);
    SliceOfSum(t, body, b, 0, 4);
    SliceOfSum(t, body, b, 4, 8);
    SliceOfSum(t, body, b, 8, 16);
    SliceOfSum(t, body, b, 16, 20);
    assert b[TABLE_SIZE..] == body;
    BodyReads(es);
  }

  lemma TableReads(n: nat, m: nat, a: seq<byte>, b: seq<byte>, c: seq<byte>, d: seq<byte>, t: seq<byte>)
    requires n < TWO_32 && m < TWO_32 && t == a + b + c + d
    requires a == Le(1, 4) && b == Le(m, 4) && c == Le(ARM64X, 8) && d == Le(n, 4)
    ensures FromLe(t[..4]) == 1 && FromLe(t[4..8]) == m && FromLe(t[8..16]) == ARM64X && FromLe(t[16..20]) == n
  {
    ReadsFour(1);
    ReadsFour(m);
    ReadsEight(ARM64X);
    ReadsFour(n);
    FourFields(a, b, c, d, t);
  }

  lemma ReadsEight(n: nat)
    requires n < TWO_64
    ensures FromLe(Le(n, 8)) == n
  {
    Powers();
    LeRoundTrip(n, 8);
  }

  lemma FourFields(a: seq<byte>, b: seq<byte>, c: seq<byte>, d: seq<byte>, t: seq<byte>)
    requires |a| == |b| == |d| == 4 && |c| == 8 && t == a + b + c + d
    ensures t[..4] == a && t[4..8] == b && t[8..16] == c && t[16..20] == d
  {
  }

  /** Finalizing and writing a chunk: the loader sees the entries, sorted. */
  method FinalizeAndWrite(chunk: DynamicRelocsChunk) returns (buf: array<byte>)
    requires chunk.arm64xRelocs != [] && EntriesOk(chunk.arm64xRelocs)
    requires |Body(SortByOffset(chunk.arm64xRelocs))| + 12 < TWO_32
    modifies chunk
    ensures chunk.size == buf.Length && ReadChunk(buf[..]) == Some(AllCanonical(SortByOffset(old(chunk.arm64xRelocs))))
  {
    ghost var es := chunk.arm64xRelocs;
    SortKeepsOk(es);
    chunk.Finalize();
    buf := new byte[chunk.size](i => 0);
    assert multiset(SortByOffset(es)) == multiset(es) && es[0] in multiset(es);
    chunk.WriteTo(buf);
    ChunkReads(SortByOffset(es));
  }
}
