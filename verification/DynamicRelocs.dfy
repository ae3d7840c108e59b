/** ARM64X dynamic relocations: their size, their bytes, and what a loader reads back. */
module DynamicRelocs {
  import opened Options
  import opened Words

  datatype Kind = ZeroFill | Value | Delta

  /** `offset` is an RVA; `value` is a 64-bit payload, taken as a signed number for deltas. */
  datatype Entry = Entry(kind: Kind, size: nat, offset: nat, value: int)

  const PAGE: nat := 0x1000
  const TABLE_SIZE: nat := 20
  const ARM64X: nat := 6

  /** The sizes in use, and deltas that the encoding can express. */
  predicate EntryOk(e: Entry) {
    e.offset < TWO_32 &&
    match e.kind
    case Delta => e.value % 4 == 0 && -0x8_0000 < e.value < 0x8_0000 &&
      (e.value % 8 != 0 ==> -0x4_0000 < e.value < 0x4_0000)
    case _ => e.size == 2 || e.size == 4 || e.size == 8
  }

  ghost predicate EntriesOk(es: seq<Entry>) {
    forall i :: 0 <= i < |es| ==> EntryOk(es[i])
  }

  // ------------------------------------------------------------------ one entry

  /** The little-endian bytes of a number. */
  function Le(n: nat, k: nat): (b: seq<byte>)
    ensures |b| == k
  {
    if k == 0 then [] else [n % 256] + Le(n / 256, k - 1)
  }

  function FromLe(b: seq<byte>): nat {
    if b == [] then 0 else (b[0] as int) + 256 * FromLe(b[1..])
  }

  lemma {:induction false} LeRoundTrip(n: nat, k: nat)
    ensures FromLe(Le(n, k)) == n % Pow256(k)
  {
    if k > 0 {
      LeRoundTrip(n / 256, k - 1);
      assert Le(n, k)[1..] == Le(n / 256, k - 1);
      SplitModulo(n, Pow256(k - 1));
    }
  }

  lemma SplitModulo(n: nat, m: nat)
    requires m > 0
    ensures n % 256 + 256 * (n / 256 % m) == n % (256 * m)
  {
    var q, r := n / 256 / m, n / 256 % m;
    assert n == 256 * (q * m + r) + n % 256;
    assert 256 * (q * m + r) == q * (256 * m) + 256 * r;
    Remainder(n, q, 256 * m, 256 * r + n % 256);
  }

  lemma Remainder(n: nat, q: nat, m: nat, r: nat)
    requires n == q * m + r && r < m
    ensures n % m == r
  {
    var x := n / m - q;
    assert x * m == n / m * m - q * m == r - n % m;
    AtLeast(x, m);
    AtLeast(-x, m);
  }

  lemma AtLeast(x: int, m: nat)
    requires m > 0
    ensures x >= 1 ==> x * m >= m
  {
  }

  function KindCode(k: Kind): nat {
    match k
    case ZeroFill => 0
    case Value => 1
    case Delta => 2
  }

  function Abs(x: int): nat { if x < 0 then -x else x }

  /** The two top bits of the header: the binary logarithm of the size, or sign and scale of a delta. */
  function Extra(e: Entry): nat {
    match e.kind
    case Delta => (if e.value < 0 then 1 else 0) + (if e.value % 8 == 0 then 2 else 0)
    case _ => if e.size == 2 then 1 else if e.size == 4 then 2 else 3
  }

  function EntryHeader(e: Entry): nat {
    e.offset % PAGE + KindCode(e.kind) * 0x1000 + Extra(e) * 0x4000
  }

  function Payload(e: Entry): seq<byte> {
    match e.kind
    case ZeroFill => []
    case Value => Le(e.value % TWO_64, e.size)
    case Delta => Le(Abs(e.value) / (if e.value % 8 == 0 then 8 else 4), 2)
  }

  /** `Arm64XDynamicRelocEntry::writeTo`. */
  function EntryBytes(e: Entry): seq<byte> {
    Le(EntryHeader(e), 2) + Payload(e)
  }

  /** `Arm64XDynamicRelocEntry::getSize`. */
  function EntrySize(e: Entry): nat {
    match e.kind
    case ZeroFill => 2
    case Value => 2 + e.size
    case Delta => 4
  }

  lemma EntrySizeIs(e: Entry)
    requires EntryOk(e)
    ensures |EntryBytes(e)| == EntrySize(e) && EntrySize(e) % 2 == 0
  {
  }

  // ------------------------------------------------------------------ blocks

  function PageOf(e: Entry): nat { e.offset - e.offset % PAGE }

  function Align4(n: nat): (r: nat)
    ensures n <= r < n + 4 && r % 4 == 0
  {
    (n + 3) / 4 * 4
  }

  function Zeros(n: nat): (z: seq<byte>)
    ensures |z| == n && forall i :: 0 <= i < n ==> z[i] == 0
  {
    seq(n, i => 0)
  }

  function AllBytes(es: seq<Entry>): seq<byte> {
    if es == [] then [] else AllBytes(es[..|es| - 1]) + EntryBytes(es[|es| - 1])
  }

  /** A block: page, size, entries, padding. */
  function Block(page: nat, es: seq<Entry>): (r: seq<byte>)
    ensures |r| == 8 + Align4(|AllBytes(es)|)
  {
    var b := AllBytes(es);
    Le(page, 4) + Le(8 + Align4(|b|), 4) + b + Zeros(Align4(|b|) - |b|)
  }

  /** How many entries from the end of `es` share its last entry's page. */
  function Tail(es: seq<Entry>): (n: nat)
    ensures n <= |es| && (es != [] ==> n > 0)
    ensures forall i :: |es| - n <= i < |es| ==> PageOf(es[i]) == PageOf(es[|es| - 1])
    ensures n < |es| ==> PageOf(es[|es| - n - 1]) != PageOf(es[|es| - 1])
  {
    if es == [] then 0
    else if |es| == 1 || PageOf(es[|es| - 2]) != PageOf(es[|es| - 1]) then 1
    else
      var init := es[..|es| - 1];
      assert init[|init| - 1] == es[|es| - 2];
      1 + Tail(init)
  }

  /** One block for every run of entries on one page. */
  function Body(es: seq<Entry>): seq<byte>
    decreases |es|
  {
    if es == [] then []
    else
      var start := |es| - Tail(es);
      Body(es[..start]) + Block(PageOf(es[|es| - 1]), es[start..])
  }

  /** Version, size of what follows, kind, size of the blocks. */
  function TableBytes(following: nat, blocks: nat): (t: seq<byte>)
    ensures |t| == TABLE_SIZE
  {
    Le(1, 4) + Le(following, 4) + Le(ARM64X, 8) + Le(blocks, 4)
  }

  /** The bytes of the whole chunk. */
  function ChunkBytes(es: seq<Entry>): seq<byte> {
    TableBytes(12 + |Body(es)|, |Body(es)|) + Body(es)
  }

  /** What follows the two fields at the start of a block. */
  function BlockRest(es: seq<Entry>): seq<byte> {
    var b := AllBytes(es);
    b + Zeros(Align4(|b|) - |b|)
  }

  /** A block begins with its page and its size, which is a multiple of four. */
  lemma BlockFields(page: nat, es: seq<Entry>)
    ensures Block(page, es) == Le(page, 4) + Le(|Block(page, es)|, 4) + BlockRest(es)
    ensures |Block(page, es)| == 8 + |BlockRest(es)| && |Block(page, es)| % 4 == 0
  {
    var b := AllBytes(es);
    SumAligned(0, Align4(|b|));
    Associates(Le(page, 4) + Le(8 + Align4(|b|), 4), b, Zeros(Align4(|b|) - |b|));
  }

  lemma FourBytes()
    ensures Pow256(4) == TWO_32 && Pow256(2) == 0x1_0000
  {
    assert Pow256(1) == 256;
    assert Pow256(2) == 0x1_0000;
    assert Pow256(3) == 0x100_0000;
  }

  /** The last run of entries makes up the last block. */
  lemma BodyLast(es: seq<Entry>, start: nat)
    requires es != [] && start == |es| - Tail(es)
    ensures Body(es) == Body(es[..start]) + Block(PageOf(es[|es| - 1]), es[start..])
    ensures |Body(es)| == |Body(es[..start])| + |Block(PageOf(es[|es| - 1]), es[start..])|
  {
  }

  lemma BodyLength(es: seq<Entry>, start: nat, before: seq<Entry>, last: seq<Entry>)
    requires es != [] && start == |es| - Tail(es) && before == es[..start] && last == es[start..]
    ensures |Body(es)| == |Body(before)| + 8 + Align4(|AllBytes(last)|)
  {
    BodyLast(es, start);
  }

  lemma SumAligned(a: nat, b: nat)
    requires a % 4 == 0 && b % 4 == 0
    ensures (a + 8 + b) % 4 == 0
  {
  }

  lemma {:induction false} BodyAligned(es: seq<Entry>)
    ensures |Body(es)| % 4 == 0
    decreases |es|
  {
    if es != [] {
      var start := |es| - Tail(es);
      var before, last := es[..start], es[start..];
      BodyAligned(before);
      SumAligned(|Body(before)|, Align4(|AllBytes(last)|));
      BodyLength(es, start, before, last);
    }
  }

  // ------------------------------------------------------------------ one entry more

  /** The bytes before the last block is closed: its size is still missing, and so is its padding. */
  function OpenBytes(es: seq<Entry>): seq<byte> {
    if es == [] then []
    else
      var start := |es| - Tail(es);
      Body(es[..start]) + Le(PageOf(es[|es| - 1]), 4) + Zeros(4) + AllBytes(es[start..])
  }

  /** Closing the last block pads it to a multiple of four. */
  lemma OpenLength(es: seq<Entry>)
    ensures |Body(es)| == Align4(|OpenBytes(es)|)
  {
    if es != [] {
      var start := |es| - Tail(es);
      var before, last := es[..start], es[start..];
      BodyAligned(before);
      BodyLength(es, start, before, last);
      assert |OpenBytes(es)| == |Body(before)| + 8 + |AllBytes(last)| by { OpenLast(es, start, before, last); }
      AlignShift(|Body(before)|, |AllBytes(last)|, |OpenBytes(es)|);
    }
  }

  lemma OpenLast(es: seq<Entry>, start: nat, before: seq<Entry>, last: seq<Entry>)
    requires es != [] && start == |es| - Tail(es) && before == es[..start] && last == es[start..]
    ensures OpenBytes(es) == Body(before) + Le(PageOf(es[|es| - 1]), 4) + Zeros(4) + AllBytes(last)
    ensures |OpenBytes(es)| == |Body(before)| + 8 + |AllBytes(last)|
  {
  }

  lemma AlignShift(a: nat, b: nat, c: nat)
    requires a % 4 == 0 && c == a + 8 + b
    ensures Align4(c) == a + 8 + Align4(b)
  {
  }

  lemma NewPage(es: seq<Entry>, e: Entry)
    requires es == [] || PageOf(es[|es| - 1]) != PageOf(e)
    ensures OpenBytes(es + [e]) == Body(es) + Le(PageOf(e), 4) + Zeros(4) + EntryBytes(e)
  {
    var all := es + [e];
    assert all[|all| - 1] == e && all[..|es|] == es && all[|es|..] == [e];
    assert Tail(all) == 1;
    OpenLast(all, |es|, es, [e]);
    OneEntry(e);
  }

  lemma OneEntry(e: Entry)
    ensures AllBytes([e]) == EntryBytes(e)
  {
    assert [e][..0] == [];
  }

  lemma SamePage(es: seq<Entry>, e: Entry)
    requires es != [] && PageOf(es[|es| - 1]) == PageOf(e)
    ensures OpenBytes(es + [e]) == OpenBytes(es) + EntryBytes(e)
  {
    var all, start := es + [e], |es| - Tail(es);
    assert all[|all| - 1] == e && all[|all| - 2] == es[|es| - 1] && all[..|es|] == es;
    assert Tail(all) == 1 + Tail(es);
    var run, last, before := all[start..], es[start..], es[..start];
    assert all[..start] == before;
    RunGrows(last, e, run);
    OpenLast(all, start, before, run);
    OpenLast(es, start, before, last);
    Associates(Body(before) + Le(PageOf(e), 4) + Zeros(4), AllBytes(last), EntryBytes(e));
  }

  lemma RunGrows(last: seq<Entry>, e: Entry, run: seq<Entry>)
    requires run == last + [e]
    ensures AllBytes(run) == AllBytes(last) + EntryBytes(e)
  {
    assert run[..|run| - 1] == last && run[|run| - 1] == e;
  }

  lemma Associates(a: seq<byte>, b: seq<byte>, c: seq<byte>)
    ensures a + b + c == a + (b + c)
  {
  }

  lemma Snoc(es: seq<Entry>, k: nat, next: nat)
    requires k < |es| && next == k + 1
    ensures es[..next] == es[..k] + [es[k]]
  {
  }

  lemma {:induction false} BodyGrows(es: seq<Entry>, k: nat)
    requires k <= |es| && EntriesOk(es)
    ensures |OpenBytes(es[..k])| <= |Body(es[..k])| <= |Body(es)|
    decreases |es| - k
  {
    OpenLength(es[..k]);
    if k == |es| {
      assert es[..k] == es;
    } else {
      var next := k + 1;
      BodyGrows(es, next);
      Snoc(es, k, next);
      BodyStep(es[..k], es[k]);
    }
  }

  lemma BodyStep(es: seq<Entry>, e: Entry)
    ensures |Body(es)| <= |Body(es + [e])|
  {
    OpenLength(es);
    OpenLength(es + [e]);
    if es == [] || PageOf(es[|es| - 1]) != PageOf(e) {
      NewPage(es, e);
    } else {
      SamePage(es, e);
      AlignMonotone(|OpenBytes(es)|, |OpenBytes(es + [e])|);
    }
  }

  lemma AlignMonotone(a: nat, b: nat)
    requires a <= b
    ensures Align4(a) <= Align4(b)
  {
  }

  // ------------------------------------------------------------------ sizing

  /** Stands for the library's stable sort by offset. */
  function SortByOffset(es: seq<Entry>): (r: seq<Entry>)
    ensures multiset(r) == multiset(es)
  {
    if es == [] then []
    else
      assert es == [es[0]] + es[1..];
      Insert(es[0], SortByOffset(es[1..]))
  }

  function Insert(e: Entry, es: seq<Entry>): (r: seq<Entry>)
    ensures multiset(r) == multiset(es) + multiset{e}
  {
    if es == [] || e.offset <= es[0].offset then [e] + es
    else
      assert es == [es[0]] + es[1..];
      [es[0]] + Insert(e, es[1..])
  }

  ghost predicate AscendingOffsets(es: seq<Entry>) {
    forall i, j :: 0 <= i < j < |es| ==> es[i].offset <= es[j].offset
  }

  /** The entries at one offset. */
  function At(es: seq<Entry>, offset: nat): seq<Entry> {
    if es == [] then [] else (if es[0].offset == offset then [es[0]] else []) + At(es[1..], offset)
  }

  /** The sort is by offset, and leaves entries at the same offset in order. */
  lemma {:induction false} SortSorts(es: seq<Entry>, offset: nat)
    ensures AscendingOffsets(SortByOffset(es)) && At(SortByOffset(es), offset) == At(es, offset)
  {
    if es != [] {
      SortSorts(es[1..], offset);
      InsertSorted(es[0], SortByOffset(es[1..]));
      InsertStable(es[0], SortByOffset(es[1..]), offset);
    }
  }

  lemma {:induction false} InsertSorted(e: Entry, es: seq<Entry>)
    requires AscendingOffsets(es)
    ensures AscendingOffsets(Insert(e, es))
  {
    if es != [] && e.offset > es[0].offset {
      var rest := es[1..];
      InsertSorted(e, rest);
      var r := Insert(e, rest);
      forall x | x in r ensures es[0].offset <= x.offset {
        assert x in multiset(r);
        assert x == e || x in rest;
      }
    }
  }

  lemma {:induction false} InsertStable(e: Entry, es: seq<Entry>, offset: nat)
    ensures At(Insert(e, es), offset) == At([e] + es, offset)
  {
    assert ([e] + es)[1..] == es;
    if es != [] && e.offset > es[0].offset {
      var rest := es[1..];
      InsertStable(e, rest, offset);
      assert ([es[0]] + Insert(e, rest))[1..] == Insert(e, rest) && ([e] + rest)[1..] == rest;
    }
  }

  /** The sort keeps the entries well formed. */
  lemma SortKeepsOk(es: seq<Entry>)
    requires EntriesOk(es)
    ensures EntriesOk(SortByOffset(es))
  {
    var r := SortByOffset(es);
    forall i | 0 <= i < |r| ensures EntryOk(r[i]) {
      assert r[i] in multiset(r);
      assert r[i] in es;
    }
  }

  ghost predicate HasOffset(es: seq<Entry>, offset: nat) {
    exists i :: 0 <= i < |es| && es[i].offset == offset
  }

  ghost predicate IsFirstAt(es: seq<Entry>, i: nat, offset: nat) {
    i < |es| && es[i].offset == offset && forall j :: 0 <= j < i ==> es[j].offset != offset
  }

  /** The first entry at the offset has the new value; nothing else is different. */
  ghost predicate SetAt(es: seq<Entry>, offset: nat, value: int, fs: seq<Entry>) {
    exists i: nat :: (IsFirstAt(es, i, offset) && fs == es[i := es[i].(value := value)])
  }

  /** The search by offset. */
  method FindOffset(es: seq<Entry>, offset: nat) returns (i: nat)
    requires HasOffset(es, offset)
    ensures IsFirstAt(es, i, offset)
  {
    i := 0;
    while es[i].offset != offset
      invariant i < |es| && forall j :: 0 <= j < i ==> es[j].offset != offset
      decreases |es| - i
    {
      i := i + 1;
    }
  }

  /** Entries that differ in their values only. */
  ghost predicate SameShape(es: seq<Entry>, fs: seq<Entry>) {
    |es| == |fs| && forall i :: 0 <= i < |es| ==> es[i] == fs[i].(value := es[i].value)
  }

  lemma {:induction false} SameShapeBytes(es: seq<Entry>, fs: seq<Entry>)
    requires SameShape(es, fs)
    ensures |AllBytes(es)| == |AllBytes(fs)|
  {
    if es != [] {
      SameShapeBytes(es[..|es| - 1], fs[..|fs| - 1]);
    }
  }

  lemma {:induction false} SameShapeTail(es: seq<Entry>, fs: seq<Entry>)
    requires SameShape(es, fs)
    ensures Tail(es) == Tail(fs)
  {
    if |es| > 1 {
      SameShapeTail(es[..|es| - 1], fs[..|fs| - 1]);
    }
  }

  /** Values do not influence the size. */
  lemma {:induction false} SameShapeSameSize(es: seq<Entry>, fs: seq<Entry>)
    requires SameShape(es, fs)
    ensures |Body(es)| == |Body(fs)|
    decreases |es|
  {
    if es != [] {
      SameShapeTail(es, fs);
      var start := |es| - Tail(es);
      SameShapeSameSize(es[..start], fs[..start]);
      SameShapeBytes(es[start..], fs[start..]);
      BodyLength(es, start, es[..start], es[start..]);
      BodyLength(fs, start, fs[..start], fs[start..]);
    }
  }

  /** The size before the last block is padded. */
  ghost function OpenSize(es: seq<Entry>): nat {
    TABLE_SIZE + |OpenBytes(es)|
  }

  /** The page of the last entry, or a number that is no page. */
  function LastPage(es: seq<Entry>): nat {
    if es == [] then 0xfff else PageOf(es[|es| - 1])
  }

  lemma SizeEnd(es: seq<Entry>)
    ensures Align4(OpenSize(es)) == TABLE_SIZE + |Body(es)|
  {
    OpenLength(es);
    AlignTable(|OpenBytes(es)|);
  }

  lemma AlignTable(n: nat)
    ensures Align4(TABLE_SIZE + n) == TABLE_SIZE + Align4(n)
  {
  }

  lemma SizeStep(es: seq<Entry>, e: Entry, prevPage: nat)
    requires EntryOk(e) && prevPage == LastPage(es)
    ensures LastPage(es + [e]) == PageOf(e)
    ensures OpenSize(es + [e]) ==
      (if PageOf(e) != prevPage then Align4(OpenSize(es)) + 8 else OpenSize(es)) + EntrySize(e)
  {
    PageIsPage(e);
    if PageOf(e) != prevPage {
      NewBlockSize(es, e);
      SizeEnd(es);
    } else {
      SameBlockSize(es, e);
    }
  }

  lemma PageIsPage(e: Entry)
    ensures PageOf(e) != 0xfff
  {
    assert PageOf(e) % PAGE == 0;
  }

  lemma SameBlockSize(es: seq<Entry>, e: Entry)
    requires EntryOk(e) && es != [] && PageOf(e) == LastPage(es)
    ensures |OpenBytes(es + [e])| == |OpenBytes(es)| + EntrySize(e)
  {
    EntrySizeIs(e);
    SamePage(es, e);
  }

  // ------------------------------------------------------------------ writing into the buffer

  function Spliced(s: seq<byte>, at: nat, b: seq<byte>): seq<byte>
    requires at + |b| <= |s|
  {
    s[..at] + b + s[at + |b|..]
  }

  method Put(buf: array<byte>, at: nat, b: seq<byte>)
    requires at + |b| <= buf.Length
    modifies buf
    ensures buf[..] == Spliced(old(buf[..]), at, b)
  {
    ghost var was := buf[..];
    forall i | 0 <= i < |b| {
      buf[at + i] := b[i];
    }
    assert buf[..at] == was[..at] && buf[at..at + |b|] == b && buf[at + |b|..] == was[at + |b|..];
    assert buf[..] == buf[..at] + buf[at..at + |b|] + buf[at + |b|..];
  }

  /** Writing where the zeros begin. */
  lemma PutAtEnd(s: seq<byte>, a: seq<byte>, n: nat, b: seq<byte>, m: nat, at: nat)
    requires s == a + Zeros(n) && m + |b| == n && at == |a|
    ensures Spliced(s, at, b) == a + b + Zeros(m)
  {
    assert s[..at] == a;
    assert s[at + |b|..] == Zeros(m);
  }

  /** Writing over a field in the middle. */
  lemma PutInside(s: seq<byte>, a: seq<byte>, x: seq<byte>, z: seq<byte>, b: seq<byte>, at: nat)
    requires s == a + x + z && |x| == |b| && at == |a|
    ensures Spliced(s, at, b) == a + b + z
  {
    assert s[..at] == a;
    assert s[at + |b|..] == z;
  }

  /** The entries of the blocks before the last one. */
  ghost function Settled(es: seq<Entry>): seq<Entry> {
    es[..|es| - Tail(es)]
  }

  /** Where the last block begins. */
  ghost function LastHeader(es: seq<Entry>): nat {
    |Body(Settled(es))|
  }

  /** An entry on another page settles the block before it. */
  lemma SettledNew(es: seq<Entry>, e: Entry, more: seq<Entry>)
    requires more == es + [e] && (es == [] || PageOf(e) != LastPage(es))
    ensures Settled(more) == es
  {
    assert more[|more| - 1] == e && more[..|es|] == es;
    assert Tail(more) == 1;
  }

  lemma SettledSame(es: seq<Entry>, e: Entry, more: seq<Entry>)
    requires more == es + [e] && es != [] && PageOf(e) == LastPage(es)
    ensures Settled(more) == Settled(es)
  {
    assert more[..|es|] == es && more[|more| - 2] == es[|es| - 1] && more[|more| - 1] == e;
    assert Tail(more) == 1 + Tail(es);
    assert more[..|es| - Tail(es)] == es[..|es| - Tail(es)];
  }

  /** The page header of the last block: its page, and where it is. */
  datatype PageHeader = PageHeader(pageRva: nat, at: nat)

  /** The header that the writer holds on to after some entries: there is one unless there are none. */
  ghost function LastPageHeader(es: seq<Entry>): (h: Option<PageHeader>)
    ensures h.None? <==> es == []
  {
    if es == [] then None else Some(PageHeader(LastPage(es), LastHeader(es)))
  }

  lemma Rejoin(table: seq<byte>, b: seq<byte>, p: seq<byte>, f: seq<byte>, a: seq<byte>, z: seq<byte>, y: seq<byte>)
    ensures table + (b + p + f + a) + (z + y) == (table + b + p) + f + (a + z + y)
    ensures table + (b + (p + f + a + z)) + y == (table + b + p) + f + (a + z + y)
  {
  }

  lemma ZerosSplit(n: nat, k: nat)
    requires k <= n
    ensures Zeros(n) == Zeros(k) + Zeros(n - k)
  {
  }

  /** A field in the middle of five parts. */
  lemma FillField(s: seq<byte>, table: seq<byte>, b: seq<byte>, p: seq<byte>, a: seq<byte>, f: seq<byte>, pad: nat,
                  m: nat, at: nat)
    requires s == table + (b + p + Zeros(4) + a) + Zeros(pad + m) && |f| == 4 && at == |table| + |b| + |p|
    ensures Spliced(s, at, f) == table + (b + (p + f + a + Zeros(pad))) + Zeros(m)
  {
    ZerosSplit(pad + m, pad);
    Rejoin(table, b, p, Zeros(4), a, Zeros(pad), Zeros(m));
    PutInside(s, table + b + p, Zeros(4), a + Zeros(pad) + Zeros(m), f, at);
    Rejoin(table, b, p, f, a, Zeros(pad), Zeros(m));
  }

  /** The parts of the bytes before and after the last block is closed. */
  lemma LastParts(es: seq<Entry>) returns (b: seq<byte>, p: seq<byte>, a: seq<byte>, pad: nat, size: nat)
    requires es != []
    ensures OpenBytes(es) == b + p + Zeros(4) + a && Body(es) == b + (p + Le(size, 4) + a + Zeros(pad))
    ensures |p| == 4 && |b| == LastHeader(es) && |b| % 4 == 0 && size == 8 + |a| + pad && |a| + pad == Align4(|a|)
  {
    var start := |es| - Tail(es);
    var before, last, page := es[..start], es[start..], PageOf(es[|es| - 1]);
    b, p, a := Body(before), Le(page, 4), AllBytes(last);
    pad := Align4(|a|) - |a|;
    size := 8 + |a| + pad;
    assert before == Settled(es);
    BodyAligned(before);
    assert OpenBytes(es) == b + p + Zeros(4) + a by { OpenLast(es, start, before, last); }
    assert Body(es) == b + Block(page, last) by { BodyLast(es, start); }
    assert Block(page, last) == p + Le(size, 4) + a + Zeros(pad);
  }

  /** Filling in the size of the last block completes it: the zeros after it are its padding. */
  lemma Closed(s: seq<byte>, es: seq<Entry>, table: seq<byte>, n: nat, at: nat, size: nat, left: nat, m: nat)
    requires es != [] && |table| == TABLE_SIZE && left == n - |OpenBytes(es)| && m == n - |Body(es)|
    requires s == table + OpenBytes(es) + Zeros(left)
    requires at == TABLE_SIZE + LastHeader(es) + 4 && size == Align4(|OpenBytes(es)|) - LastHeader(es)
    ensures at + 4 <= |s| && Spliced(s, at, Le(size, 4)) == table + Body(es) + Zeros(m)
  {
    var b, p, a, pad, size' := LastParts(es);
    SizeField(|b|, |a|, |OpenBytes(es)|, size);
    assert size == size' && left == pad + m;
    FillField(s, table, b, p, a, Le(size, 4), pad, m, at);
  }

  lemma SizeField(h: nat, a: nat, o: nat, size: nat)
    requires h % 4 == 0 && o == h + 8 + a && size == Align4(o) - h
    ensures size == 8 + Align4(a)
  {
    AlignShift(h, a, o);
  }

  method CloseBlock(buf: array<byte>, header: nat, relocSize: nat, ghost es: seq<Entry>, ghost table: seq<byte>,
                    ghost n: nat)
    requires es != [] && |table| == TABLE_SIZE && |Body(es)| <= n && header == LastHeader(es)
    requires relocSize == |OpenBytes(es)| <= n && buf[..] == table + OpenBytes(es) + Zeros(n - relocSize)
    modifies buf
    ensures buf[..] == table + Body(es) + Zeros(n - |Body(es)|)
  {
    HeaderBelow(es);
    var at, size := TABLE_SIZE + header + 4, Align4(relocSize) - header;
    Closed(buf[..], es, table, n, at, size, n - relocSize, n - |Body(es)|);
    Put(buf, at, Le(size, 4));
  }

  lemma HeaderBelow(es: seq<Entry>)
    requires es != []
    ensures LastHeader(es) <= |OpenBytes(es)|
  {
    var start := |es| - Tail(es);
    OpenLast(es, start, es[..start], es[start..]);
  }

  /** Closes the last block, if there is one, and starts another. */
  method StartBlock(buf: array<byte>, page: nat, pageHeader: Option<PageHeader>, relocSize0: nat,
                    ghost es: seq<Entry>, ghost table: seq<byte>, ghost n: nat) returns (at: nat, relocSize: nat)
    requires pageHeader == LastPageHeader(es) && |table| == TABLE_SIZE
    requires relocSize0 == |OpenBytes(es)| <= n && |Body(es)| + 8 <= n
    requires buf[..] == table + OpenBytes(es) + Zeros(n - relocSize0)
    modifies buf
    ensures at == |Body(es)| && relocSize == at + 8
    ensures buf[..] == table + NewBlock(es, page) + Zeros(n - relocSize)
  {
    OpenLength(es);
    if pageHeader.Some? {
      CloseBlock(buf, pageHeader.value.at, relocSize0, es, table, n);
    }
    at := Align4(relocSize0);
    ghost var b := Body(es);
    ghost var left, rest := n - at, n - at - 4;
    var position := TABLE_SIZE + at;
    assert buf[..] == table + b + Zeros(left);
    PutAtEnd(buf[..], table + b, left, Le(page, 4), rest, position);
    Put(buf, position, Le(page, 4));
    ZerosSplit(rest, 4);
    relocSize := at + 8;
    PageWritten(buf[..], table, b, Le(page, 4), n - relocSize);
  }

  /** Complete blocks, and the start of another. */
  ghost function NewBlock(es: seq<Entry>, page: nat): seq<byte> {
    Body(es) + Le(page, 4) + Zeros(4)
  }

  /** Writes an entry after what is there. */
  method Append(buf: array<byte>, e: Entry, relocSize: nat, ghost table: seq<byte>, ghost a: seq<byte>, ghost n: nat)
    returns (next: nat)
    requires EntryOk(e) && |table| == TABLE_SIZE && |a| == relocSize && relocSize + EntrySize(e) <= n
    requires buf[..] == table + a + Zeros(n - relocSize)
    modifies buf
    ensures next == relocSize + EntrySize(e) && buf[..] == table + (a + EntryBytes(e)) + Zeros(n - next)
  {
    EntrySizeIs(e);
    next := relocSize + EntrySize(e);
    var at := TABLE_SIZE + relocSize;
    PutAtEnd(buf[..], table + a, n - relocSize, EntryBytes(e), n - next, at);
    Put(buf, at, EntryBytes(e));
    Associates(table, a, EntryBytes(e));
  }

  /** What is written before the bytes of entry `e` itself. */
  ghost function Before(es: seq<Entry>, e: Entry): seq<byte> {
    if es == [] || PageOf(e) != LastPage(es) then NewBlock(es, PageOf(e)) else OpenBytes(es)
  }

  lemma BeforeThen(es: seq<Entry>, e: Entry, more: seq<Entry>)
    requires EntryOk(e) && more == es + [e]
    ensures OpenBytes(more) == Before(es, e) + EntryBytes(e) && |OpenBytes(more)| == |Before(es, e)| + EntrySize(e)
  {
    EntrySizeIs(e);
    if es == [] || PageOf(e) != LastPage(es) {
      NewPage(es, e);
    } else {
      SamePage(es, e);
    }
  }

  /** The header after entry `e`. */
  lemma HeaderAfter(es: seq<Entry>, e: Entry, more: seq<Entry>)
    requires more == es + [e]
    ensures LastPageHeader(more) ==
      if es == [] || PageOf(e) != LastPage(es) then Some(PageHeader(PageOf(e), |Body(es)|)) else LastPageHeader(es)
  {
    assert LastPage(more) == PageOf(e);
    if es == [] || PageOf(e) != LastPage(es) {
      SettledNew(es, e, more);
    } else {
      SettledSame(es, e, more);
    }
  }

  /** Starts a block for `e`, if it needs one. */
  method Prepare(buf: array<byte>, e: Entry, pageHeader0: Option<PageHeader>, relocSize0: nat,
                 ghost es: seq<Entry>, ghost more: seq<Entry>, ghost table: seq<byte>, ghost n: nat)
    returns (relocSize: nat, pageHeader: Option<PageHeader>)
    requires pageHeader0 == LastPageHeader(es) && more == es + [e]
    requires |table| == TABLE_SIZE && relocSize0 == |OpenBytes(es)| <= n && |Before(es, e)| <= n
    requires buf[..] == table + OpenBytes(es) + Zeros(n - relocSize0)
    modifies buf
    ensures pageHeader == LastPageHeader(more)
    ensures relocSize == |Before(es, e)| && buf[..] == table + Before(es, e) + Zeros(n - relocSize)
  {
    HeaderAfter(es, e, more);
    relocSize, pageHeader := relocSize0, pageHeader0;
    if pageHeader.None? || PageOf(e) != pageHeader.value.pageRva {
      var at;
      at, relocSize := StartBlock(buf, PageOf(e), pageHeader, relocSize, es, table, n);
      pageHeader := Some(PageHeader(PageOf(e), at));
    }
  }

  /** One turn of the writer's loop. */
  method WriteEntry(buf: array<byte>, e: Entry, pageHeader0: Option<PageHeader>, relocSize0: nat,
                    ghost es: seq<Entry>, ghost more: seq<Entry>, ghost table: seq<byte>, ghost n: nat)
    returns (relocSize: nat, pageHeader: Option<PageHeader>)
    requires EntryOk(e) && pageHeader0 == LastPageHeader(es) && more == es + [e]
    requires |table| == TABLE_SIZE && relocSize0 == |OpenBytes(es)| <= n && |OpenBytes(more)| <= n
    requires buf[..] == table + OpenBytes(es) + Zeros(n - relocSize0)
    modifies buf
    ensures pageHeader == LastPageHeader(more)
    ensures relocSize == |OpenBytes(more)| && buf[..] == table + OpenBytes(more) + Zeros(n - relocSize)
  {
    BeforeThen(es, e, more);
    ghost var before, after := Before(es, e), OpenBytes(more);
    relocSize, pageHeader := Prepare(buf, e, pageHeader0, relocSize0, es, more, table, n);
    assert buf[..] == table + before + Zeros(n - relocSize);
    relocSize := Append(buf, e, relocSize, table, before, n);
    assert buf[..] == table + after + Zeros(n - relocSize);
  }

  /** The writer's loop. */
  method WriteEntries(buf: array<byte>, es: seq<Entry>, ghost table: seq<byte>, ghost n: nat)
    returns (relocSize: nat, pageHeader: Option<PageHeader>)
    requires EntriesOk(es) && |table| == TABLE_SIZE && n == |Body(es)|
    requires buf[..] == table + OpenBytes([]) + Zeros(n)
    modifies buf
    ensures pageHeader == LastPageHeader(es)
    ensures relocSize == |OpenBytes(es)| <= n && buf[..] == table + OpenBytes(es) + Zeros(n - relocSize)
  {
    pageHeader := None;
    var i := 0;
    relocSize := 0;
    ghost var done: seq<Entry> := [];
    while i < |es|
      invariant i <= |es| && done == es[..i] && relocSize == |OpenBytes(done)| <= n
      invariant buf[..] == table + OpenBytes(done) + Zeros(n - relocSize)
      invariant pageHeader == LastPageHeader(done)
    {
      var e, next := es[i], i + 1;
      Snoc(es, i, next);
      BodyGrows(es, next);
      assert es[..next] == done + [e];
      ghost var more := done + [e];
      relocSize, pageHeader := WriteEntry(buf, e, pageHeader, relocSize, done, more, table, n);
      done := more;
      i := next;
    }
    assert i == |es|;
    assert es[..i] == es;
    BodyGrows(es, i);
  }

  /** The loop and the end of the last block. */
  method WriteBlocks(buf: array<byte>, es: seq<Entry>, ghost table: seq<byte>, ghost n: nat) returns (relocSize: nat)
    requires LastPageHeader(es).Some? && EntriesOk(es) && |table| == TABLE_SIZE && n == |Body(es)|
    requires buf[..] == table + OpenBytes([]) + Zeros(n)
    modifies buf
    ensures relocSize == n && buf[..] == table + Body(es) + Zeros(0)
  {
    var pageHeader;
    relocSize, pageHeader := WriteEntries(buf, es, table, n);
    CloseBlock(buf, pageHeader.value.at, relocSize, es, table, n);
    OpenLength(es);
    relocSize := Align4(relocSize);
  }

  lemma PageWritten(s: seq<byte>, table: seq<byte>, b: seq<byte>, p: seq<byte>, m: nat)
    requires s == table + b + p + (Zeros(4) + Zeros(m))
    ensures s == table + (b + p + Zeros(4)) + Zeros(m)
  {
  }

  lemma NewBlockSize(es: seq<Entry>, e: Entry)
    requires EntryOk(e)
    ensures es == [] || PageOf(e) != LastPage(es) ==> |OpenBytes(es + [e])| == |Body(es)| + 8 + EntrySize(e)
  {
    EntrySizeIs(e);
    if es == [] || PageOf(e) != LastPage(es) {
      NewPage(es, e);
    }
  }

  /** Writes what is known of the table header. */
  method StartTable(buf: array<byte>, ghost n: nat)
    requires buf[..] == Zeros(TABLE_SIZE + n)
    modifies buf
    ensures buf[..] == TableBytes(12, 0) + OpenBytes([]) + Zeros(n)
  {
    TableStarts(buf[..], n);
    Put(buf, 0, Le(1, 4));
    Put(buf, 4, Le(12, 4));
    Put(buf, 8, Le(ARM64X, 8));
  }

  /** Writes the sizes into the table header. */
  method EndTable(buf: array<byte>, relocSize: nat, ghost es: seq<Entry>)
    requires relocSize == |Body(es)| && buf[..] == TableBytes(12, 0) + Body(es) + Zeros(0)
    modifies buf
    ensures buf[..] == ChunkBytes(es)
  {
    TableEnds(buf[..], Body(es), relocSize);
    Put(buf, 16, Le(relocSize, 4));
    Put(buf, 4, Le(12 + relocSize, 4));
  }

  /** The table header before its sizes are known. */
  lemma TableStarts(s: seq<byte>, n: nat)
    requires s == Zeros(TABLE_SIZE + n)
    ensures Spliced(Spliced(Spliced(s, 0, Le(1, 4)), 4, Le(12, 4)), 8, Le(ARM64X, 8))
         == TableBytes(12, 0) + OpenBytes([]) + Zeros(n)
  {
    var a := Le(1, 4);
    assert s == [] + Zeros(TABLE_SIZE + n);
    PutAtEnd(s, [], TABLE_SIZE + n, a, n + 16, 0);
    assert [] + a == a;
    var s1 := Spliced(s, 0, a);
    PutAtEnd(s1, a, n + 16, Le(12, 4), n + 12, 4);
    var s2 := Spliced(s1, 4, Le(12, 4));
    PutAtEnd(s2, a + Le(12, 4), n + 12, Le(ARM64X, 8), n + 4, 8);
    ZerosSplit(n + 4, 4);
    ZeroBytes(4);
    Associates(a + Le(12, 4) + Le(ARM64X, 8), Le(0, 4), Zeros(n));
    assert a + Le(12, 4) + Le(ARM64X, 8) + Le(0, 4) + OpenBytes([]) == a + Le(12, 4) + Le(ARM64X, 8) + Le(0, 4);
  }

  lemma {:induction false} ZeroBytes(k: nat)
    ensures Le(0, k) == Zeros(k)
  {
    if k > 0 {
      ZeroBytes(k - 1);
    }
  }

  lemma TwoFields(s: seq<byte>, a: seq<byte>, b: seq<byte>, c: seq<byte>, d: seq<byte>, body: seq<byte>, b2: seq<byte>,
                  d2: seq<byte>)
    requires |a| == |b| == |d| == |b2| == |d2| == 4 && |c| == 8 && s == a + b + c + d + body
    ensures Spliced(Spliced(s, 16, d2), 4, b2) == a + b2 + c + d2 + body
  {
    PutInside(s, a + b + c, d, body, d2, 16);
    var t, z := a + b + c + d2 + body, c + d2 + body;
    assert t == a + b + z;
    PutInside(t, a, b, z, b2, 4);
    assert a + b2 + z == a + b2 + c + d2 + body;
  }

  /** The sizes in the table header. */
  lemma TableEnds(s: seq<byte>, body: seq<byte>, n: nat)
    requires s == TableBytes(12, 0) + body + Zeros(0)
    ensures Spliced(Spliced(s, 16, Le(n, 4)), 4, Le(12 + n, 4)) == TableBytes(12 + n, n) + body
  {
    var a, b, c, d := Le(1, 4), Le(12, 4), Le(ARM64X, 8), Le(0, 4);
    assert s == a + b + c + d + body;
    TwoFields(s, a, b, c, d, body, Le(12 + n, 4), Le(n, 4));
  }

  // ------------------------------------------------------------------ the chunk

  class DynamicRelocsChunk {
    var arm64xRelocs: seq<Entry>
    var size: nat

    constructor ()
      ensures arm64xRelocs == [] && size == 0
    {
      arm64xRelocs, size := [], 0;
    }

    method Add(e: Entry)
      modifies this
      ensures arm64xRelocs == old(arm64xRelocs) + [e] && size == old(size)
    {
      arm64xRelocs := arm64xRelocs + [e];
    }

    /** Sorts the entries and computes the size of the chunk. */
    method Finalize()
      requires EntriesOk(arm64xRelocs)
      modifies this
      ensures arm64xRelocs == SortByOffset(old(arm64xRelocs))
      ensures size == TABLE_SIZE + |Body(arm64xRelocs)|
    {
      SortKeepsOk(arm64xRelocs);
      var es := SortByOffset(arm64xRelocs);
      arm64xRelocs := es;
      size := TABLE_SIZE;
      var prevPage := 0xfff;
      var i := 0;
      ghost var done: seq<Entry> := [];
      while i < |es|
        invariant i <= |es| && arm64xRelocs == es && done == es[..i] && size == OpenSize(done)
        invariant prevPage == LastPage(done)
      {
        var e, next := es[i], i + 1;
        Snoc(es, i, next);
        SizeStep(done, e, prevPage);
        var page := PageOf(e);
        if page != prevPage {
          size := Align4(size) + 8;
          prevPage := page;
        }
        size := size + EntrySize(e);
        done := done + [e];
        i := next;
      }
      assert i == |es|;
      assert es[..i] == es;
      SizeEnd(es);
      size := Align4(size);
    }

    /** Gives a value to the first entry at an offset; the size of the chunk stays right. */
    method Set(offset: nat, value: int)
      requires HasOffset(arm64xRelocs, offset)
      modifies this
      ensures size == old(size) && |Body(arm64xRelocs)| == |Body(old(arm64xRelocs))|
      ensures SetAt(old(arm64xRelocs), offset, value, arm64xRelocs)
    {
      ghost var was := arm64xRelocs;
      var i: nat := FindOffset(arm64xRelocs, offset);
      var e := arm64xRelocs[i].(value := value);
      arm64xRelocs := arm64xRelocs[i := e];
      SameShapeSameSize(was, arm64xRelocs);
    }

    /** Writes the chunk into a buffer of its size that holds zeros. */
    method WriteTo(buf: array<byte>)
      requires LastPageHeader(arm64xRelocs).Some? && EntriesOk(arm64xRelocs)
      requires buf.Length == TABLE_SIZE + |Body(arm64xRelocs)| && forall i :: 0 <= i < buf.Length ==> buf[i] == 0
      modifies buf
      ensures buf[..] == ChunkBytes(arm64xRelocs)
    {
      ghost var n := |Body(arm64xRelocs)|;
      assert buf[..] == Zeros(TABLE_SIZE + n);
      StartTable(buf, n);
      assert buf[..] == TableBytes(12, 0) + OpenBytes([]) + Zeros(n);
      var relocSize := WriteBlocks(buf, arm64xRelocs, TableBytes(12, 0), n);
      EndTable(buf, relocSize, arm64xRelocs);
    }
  }
}
