/** Relocating a section piece by piece against relocating it as a whole. */
module Subsections {
  import opened Words

  /** A relocation patches `width` bytes at `va`; what it writes depends on its other fields. */
  datatype Reloc = Reloc(va: nat, width: nat, kind: nat, symbol: nat)

  /** Bytes in, patched bytes out. */
  type Patch = (Reloc, seq<byte>) -> seq<byte>

  ghost predicate PatchOk(patch: Patch) {
    forall r: Reloc, b: seq<byte> :: |b| == r.width ==> |patch(r, b)| == r.width
  }

  /** Sorted by address, at least two bytes wide. */
  ghost predicate Sorted(relocs: seq<Reloc>) {
    (forall i, j :: 0 <= i < j < |relocs| ==> relocs[i].va <= relocs[j].va) &&
    forall i :: 0 <= i < |relocs| ==> relocs[i].width >= 2
  }

  /** A relocation that starts between `lo` and `hi` ends there too. */
  ghost predicate Inside(relocs: seq<Reloc>, lo: nat, hi: nat) {
    forall i :: 0 <= i < |relocs| && lo <= relocs[i].va < hi ==> relocs[i].va + relocs[i].width <= hi
  }

  /** The buffer after patching at offset `at`. */
  function Applied(patch: Patch, buf: seq<byte>, r: Reloc, at: nat): (b: seq<byte>)
    requires PatchOk(patch) && at + r.width <= |buf|
    ensures |b| == |buf|
  {
    buf[..at] + patch(r, buf[at..at + r.width]) + buf[at + r.width..]
  }

  /** The section after the first `k` relocations; those past the end are reported and skipped. */
  function Whole(patch: Patch, contents: seq<byte>, relocs: seq<Reloc>, k: nat): (b: seq<byte>)
    requires PatchOk(patch) && Inside(relocs, 0, |contents|) && k <= |relocs|
    ensures |b| == |contents|
  {
    if k == 0 then contents
    else
      var before := Whole(patch, contents, relocs, k - 1);
      if relocs[k - 1].va >= |contents| then before else Applied(patch, before, relocs[k - 1], relocs[k - 1].va)
  }

  /** `applyRelocation` at offset `at` of a buffer. */
  method Apply(patch: Patch, buf: array<byte>, r: Reloc, at: nat)
    requires PatchOk(patch) && at + r.width <= buf.Length
    modifies buf
    ensures buf[..] == Applied(patch, old(buf[..]), r, at)
  {
    ghost var was := buf[..];
    var bytes := patch(r, buf[at..at + r.width]);
    forall i | 0 <= i < r.width {
      buf[at + i] := bytes[i];
    }
    assert buf[..at] == was[..at] && buf[at..at + r.width] == bytes && buf[at + r.width..] == was[at + r.width..];
    assert buf[..] == buf[..at] + buf[at..at + r.width] + buf[at + r.width..];
  }

  /** A relocation that starts inside the section stays inside the buffer, but may write past the
      end of the section. */
  ghost predicate Fits(relocs: seq<Reloc>, size: nat, length: nat) {
    forall i :: 0 <= i < |relocs| && relocs[i].va < size ==> relocs[i].va + relocs[i].width <= length
  }

  /** The bytes of the section and of what follows it, after the first `k` relocations. */
  function Spilling(patch: Patch, bytes: seq<byte>, size: nat, relocs: seq<Reloc>, k: nat): (b: seq<byte>)
    requires PatchOk(patch) && Fits(relocs, size, |bytes|) && k <= |relocs|
    ensures |b| == |bytes|
  {
    if k == 0 then bytes
    else
      var before := Spilling(patch, bytes, size, relocs, k - 1);
      if relocs[k - 1].va >= size then before else Applied(patch, before, relocs[k - 1], relocs[k - 1].va)
  }

  /** If no relocation spills over, what follows the section is left alone. */
  lemma {:induction false} NothingSpills(patch: Patch, contents: seq<byte>, rest: seq<byte>, relocs: seq<Reloc>, k: nat)
    requires PatchOk(patch) && Inside(relocs, 0, |contents|) && k <= |relocs|
    ensures Fits(relocs, |contents|, |contents + rest|)
    ensures Spilling(patch, contents + rest, |contents|, relocs, k) == Whole(patch, contents, relocs, k) + rest
  {
    if k > 0 {
      NothingSpills(patch, contents, rest, relocs, k - 1);
      if relocs[k - 1].va < |contents| {
        AppliedInFront(patch, Whole(patch, contents, relocs, k - 1), rest, relocs[k - 1], relocs[k - 1].va);
      }
    }
  }

  lemma AppliedInFront(patch: Patch, front: seq<byte>, rest: seq<byte>, r: Reloc, at: nat)
    requires PatchOk(patch) && at + r.width <= |front|
    ensures Applied(patch, front + rest, r, at) == Applied(patch, front, r, at) + rest
  {
    var all := front + rest;
    assert all[..at] == front[..at] && all[at..at + r.width] == front[at..at + r.width];
    assert all[at + r.width..] == front[at + r.width..] + rest;
  }

  // ------------------------------------------------------------------ byte by byte

  /** No byte belongs to two relocations that start inside the section. */
  ghost predicate NoOverlap(relocs: seq<Reloc>, size: nat) {
    forall i, j :: 0 <= i < j < |relocs| && relocs[i].va < size && relocs[j].va < size ==>
      relocs[i].va + relocs[i].width <= relocs[j].va || relocs[j].va + relocs[j].width <= relocs[i].va
  }

  /** Byte `x` belongs to one of the first `k` relocations. */
  ghost predicate Covered(relocs: seq<Reloc>, size: nat, k: nat, x: nat)
    requires k <= |relocs|
  {
    exists i :: 0 <= i < k && relocs[i].va < size && relocs[i].va <= x < relocs[i].va + relocs[i].width
  }

  /** Where each of the first `k` relocations is, `now` has what it makes of the bytes of `was` there;
      everywhere else the bytes are those of `was`. */
  ghost predicate Written(patch: Patch, was: seq<byte>, size: nat, relocs: seq<Reloc>, k: nat, now: seq<byte>)
    requires k <= |relocs|
  {
    |now| == |was| &&
    (forall i :: 0 <= i < k && relocs[i].va < size ==>
       relocs[i].va + relocs[i].width <= |was| &&
       now[relocs[i].va..relocs[i].va + relocs[i].width] ==
         patch(relocs[i], was[relocs[i].va..relocs[i].va + relocs[i].width])) &&
    forall x :: 0 <= x < |was| && !Covered(relocs, size, k, x) ==> now[x] == was[x]
  }

  lemma {:induction false} SpillingWrites(patch: Patch, bytes: seq<byte>, size: nat, relocs: seq<Reloc>, k: nat)
    requires PatchOk(patch) && Fits(relocs, size, |bytes|) && k <= |relocs| && NoOverlap(relocs, size)
    ensures Written(patch, bytes, size, relocs, k, Spilling(patch, bytes, size, relocs, k))
  {
    if k > 0 {
      var i: nat := k - 1;
      var before := Spilling(patch, bytes, size, relocs, i);
      SpillingWrites(patch, bytes, size, relocs, i);
      if relocs[i].va >= size {
        NotInside(patch, bytes, size, relocs, i, k, before);
      } else {
        OneWritten(patch, bytes, size, relocs, i, k, before, Applied(patch, before, relocs[i], relocs[i].va));
      }
    }
  }

  lemma NotInside(patch: Patch, was: seq<byte>, size: nat, relocs: seq<Reloc>, i: nat, k: nat, now: seq<byte>)
    requires k == i + 1 && k <= |relocs| && relocs[i].va >= size && Written(patch, was, size, relocs, i, now)
    ensures Written(patch, was, size, relocs, k, now)
  {
    forall x: nat | x < |was| ensures Covered(relocs, size, k, x) <==> Covered(relocs, size, i, x) {
    }
  }

  /** The bytes of relocation `i` are as they were before it is applied. */
  lemma Untouched(patch: Patch, was: seq<byte>, size: nat, relocs: seq<Reloc>, i: nat, before: seq<byte>, at: nat,
                  end: nat)
    requires i < |relocs| && NoOverlap(relocs, size) && Written(patch, was, size, relocs, i, before)
    requires at == relocs[i].va < size && end == at + relocs[i].width <= |was|
    ensures before[at..end] == was[at..end]
  {
    forall x | at <= x < end ensures before[x] == was[x] {
      assert !Covered(relocs, size, i, x);
    }
  }

  /** Patching leaves all bytes before `at` and from `end` on. */
  lemma PatchedOnly(patch: Patch, before: seq<byte>, r: Reloc, at: nat, end: nat, now: seq<byte>)
    requires PatchOk(patch) && end == at + r.width <= |before| && now == Applied(patch, before, r, at)
    ensures |now| == |before| && now[at..end] == patch(r, before[at..end])
    ensures forall lo, hi :: 0 <= lo <= hi <= |before| && (hi <= at || end <= lo) ==> now[lo..hi] == before[lo..hi]
    ensures forall x :: 0 <= x < |before| && !(at <= x < end) ==> now[x] == before[x]
  {
  }

  lemma OneWritten(patch: Patch, was: seq<byte>, size: nat, relocs: seq<Reloc>, i: nat, k: nat, before: seq<byte>,
                   now: seq<byte>)
    requires PatchOk(patch) && Fits(relocs, size, |was|) && NoOverlap(relocs, size)
    requires k == i + 1 && k <= |relocs| && relocs[i].va < size && Written(patch, was, size, relocs, i, before)
    requires now == Applied(patch, before, relocs[i], relocs[i].va)
    ensures Written(patch, was, size, relocs, k, now)
  {
    var at, end := relocs[i].va, relocs[i].va + relocs[i].width;
    Untouched(patch, was, size, relocs, i, before, at, end);
    PatchedOnly(patch, before, relocs[i], at, end, now);
    forall x | 0 <= x < |was| && !Covered(relocs, size, k, x) ensures now[x] == was[x] {
      assert !(at <= x < end);
      assert !Covered(relocs, size, i, x);
    }
    forall j | 0 <= j < k && relocs[j].va < size
      ensures relocs[j].va + relocs[j].width <= |was|
      ensures now[relocs[j].va..relocs[j].va + relocs[j].width] ==
        patch(relocs[j], was[relocs[j].va..relocs[j].va + relocs[j].width])
    {
      if j < i {
        assert now[relocs[j].va..relocs[j].va + relocs[j].width] ==
          before[relocs[j].va..relocs[j].va + relocs[j].width];
      }
    }
  }

  /** The same for relocations that stay inside the section. */
  lemma WholeWrites(patch: Patch, contents: seq<byte>, relocs: seq<Reloc>)
    requires PatchOk(patch) && Inside(relocs, 0, |contents|) && NoOverlap(relocs, |contents|)
    ensures Written(patch, contents, |contents|, relocs, |relocs|, Whole(patch, contents, relocs, |relocs|))
  {
    NothingSpills(patch, contents, [], relocs, |relocs|);
    assert contents + [] == contents;
    assert Whole(patch, contents, relocs, |relocs|) + [] == Whole(patch, contents, relocs, |relocs|);
    SpillingWrites(patch, contents, |contents|, relocs, |relocs|);
  }

  // ------------------------------------------------------------------ the whole section

  /** `SectionChunk::writeTo`: the buffer begins with the section, and may go on after it. */
  method WriteTo(patch: Patch, contents: seq<byte>, relocs: seq<Reloc>, buf: array<byte>)
    requires PatchOk(patch) && |contents| <= buf.Length && Fits(relocs, |contents|, buf.Length)
    modifies buf
    ensures buf[..] == Spilling(patch, contents + old(buf[|contents|..]), |contents|, relocs, |relocs|)
    ensures Inside(relocs, 0, |contents|) ==>
      buf[..] == Whole(patch, contents, relocs, |relocs|) + old(buf[|contents|..])
    ensures NoOverlap(relocs, |contents|) ==>
      Written(patch, contents + old(buf[|contents|..]), |contents|, relocs, |relocs|, buf[..])
  {
    ghost var rest := buf[|contents|..];
    ghost var bytes := contents + rest;
    forall i | 0 <= i < |contents| {
      buf[i] := contents[i];
    }
    assert buf[..] == bytes by {
      assert buf[..] == buf[..|contents|] + buf[|contents|..];
    }
    var k := 0;
    while k < |relocs|
      invariant k <= |relocs| && buf[..] == Spilling(patch, bytes, |contents|, relocs, k)
    {
      var next := k + 1;
      if relocs[k].va < |contents| {
        Apply(patch, buf, relocs[k], relocs[k].va);
      }
      k := next;
    }
    assert k == |relocs|;
    if Inside(relocs, 0, |contents|) {
      NothingSpills(patch, contents, rest, relocs, k);
    }
    if NoOverlap(relocs, |contents|) {
      SpillingWrites(patch, bytes, |contents|, relocs, k);
    }
  }

  // ------------------------------------------------------------------ one subsection

  /** The first relocation from `i` on that does not start before `hi`; `n` if there is none. */
  function FirstAt(relocs: seq<Reloc>, i: nat, hi: nat): (j: nat)
    requires i <= |relocs|
    ensures i <= j <= |relocs| && (forall k :: i <= k < j ==> relocs[k].va < hi) &&
      (j < |relocs| ==> relocs[j].va >= hi)
    decreases |relocs| - i
  {
    if i == |relocs| || relocs[i].va >= hi then i else FirstAt(relocs, i + 1, hi)
  }

  /** `writeAndRelocateSubsection` for positions `lo` up to `hi`; `next0` is the carried index. */
  method WriteSubsection(patch: Patch, sec: seq<byte>, relocs: seq<Reloc>, lo: nat, hi: nat, next0: nat,
                         buf: array<byte>)
    returns (next: nat)
    requires PatchOk(patch) && Sorted(relocs) && Inside(relocs, 0, |sec|) && Inside(relocs, 0, lo) &&
      Inside(relocs, lo, hi)
    requires lo < hi <= |sec| && buf.Length == hi - lo && next0 == FirstAt(relocs, 0, lo)
    modifies buf
    ensures next == FirstAt(relocs, 0, hi)
    ensures buf[..] == Whole(patch, sec, relocs, next)[lo..hi]
  {
    forall i | 0 <= i < hi - lo {
      buf[i] := sec[lo + i];
    }
    assert buf[..] == sec[lo..hi];
    BeforeWindow(patch, sec, relocs, lo, hi, next0);
    next := next0;
    ghost var last, window := FirstAt(relocs, 0, hi), buf[..];
    FromCut(relocs, lo, next0);
    FirstAtMonotone(relocs, 0, lo, hi);
    while next < |relocs|
      invariant next0 <= next <= last && buf[..] == window == Whole(patch, sec, relocs, next)[lo..hi]
    {
      var r, after := relocs[next], next + 1;
      if r.va >= lo {
        if r.va + 1 >= hi {
          break;
        }
        var at := r.va - lo;
        assert r.va < hi && next < last;
        InWindow(patch, sec, relocs, lo, hi, next, after, at);
        Apply(patch, buf, r, at);
        window := Whole(patch, sec, relocs, after)[lo..hi];
      }
      next := after;
    }
    assert next == last;
  }

  /** Relocations before a window leave it alone. */
  lemma {:induction false} BeforeWindow(patch: Patch, sec: seq<byte>, relocs: seq<Reloc>, lo: nat, hi: nat, k: nat)
    requires PatchOk(patch) && Inside(relocs, 0, |sec|) && lo <= hi <= |sec| && k <= |relocs|
    requires forall i :: 0 <= i < k ==> relocs[i].va + relocs[i].width <= lo || relocs[i].va >= hi
    ensures Whole(patch, sec, relocs, k)[lo..hi] == sec[lo..hi]
    decreases k
  {
    if k > 0 {
      var j := k - 1;
      BeforeWindow(patch, sec, relocs, lo, hi, j);
      if relocs[j].va < |sec| {
        AppliedOutside(patch, Whole(patch, sec, relocs, j), relocs[j], lo, hi);
      }
    }
  }

  /** One inside it acts as it would on the whole. */
  lemma InWindow(patch: Patch, sec: seq<byte>, relocs: seq<Reloc>, lo: nat, hi: nat, k: nat, next: nat, at: nat)
    requires PatchOk(patch) && Inside(relocs, 0, |sec|) && lo <= hi <= |sec| && k < |relocs| && next == k + 1
    requires lo <= relocs[k].va && relocs[k].va + relocs[k].width <= hi && at == relocs[k].va - lo
    ensures Whole(patch, sec, relocs, next)[lo..hi] ==
      Applied(patch, Whole(patch, sec, relocs, k)[lo..hi], relocs[k], at)
  {
    AppliedWindow(patch, Whole(patch, sec, relocs, k), relocs[k], lo, hi);
  }

  lemma AppliedWindow(patch: Patch, b: seq<byte>, r: Reloc, lo: nat, hi: nat)
    requires PatchOk(patch) && lo <= r.va && r.va + r.width <= hi <= |b|
    ensures Applied(patch, b, r, r.va)[lo..hi] == Applied(patch, b[lo..hi], r, r.va - lo)
  {
    var at, end, c := r.va - lo, r.va + r.width, b[lo..hi];
    SliceOfSlice(b, lo, hi, at, at + r.width);
    SliceOfSlice(b, lo, hi, 0, at);
    SliceOfSlice(b, lo, hi, at + r.width, hi - lo);
    Spliced(b[..r.va], patch(r, b[r.va..end]), b[end..], lo, hi);
    assert b[..r.va][lo..] == b[lo..r.va];
    assert b[end..][..hi - end] == b[end..hi];
    assert c[..at] == c[0..at] && c[at + r.width..] == c[at + r.width..hi - lo];
  }

  lemma SliceOfSlice(b: seq<byte>, lo: nat, hi: nat, x: nat, y: nat)
    requires lo <= hi <= |b| && x <= y <= hi - lo
    ensures b[lo..hi][x..y] == b[lo + x..lo + y]
  {
    var s, t := b[lo..hi][x..y], b[lo + x..lo + y];
    assert |s| == |t|;
    forall i | 0 <= i < |s| ensures s[i] == t[i] {
      assert s[i] == b[lo..hi][x + i] == b[lo + (x + i)];
    }
  }

  lemma AppliedOutside(patch: Patch, b: seq<byte>, r: Reloc, lo: nat, hi: nat)
    requires PatchOk(patch) && r.va + r.width <= |b| && lo <= hi <= |b| && (r.va + r.width <= lo || r.va >= hi)
    ensures Applied(patch, b, r, r.va)[lo..hi] == b[lo..hi]
  {
    var s, t := Applied(patch, b, r, r.va), b;
    forall i | lo <= i < hi ensures s[i] == t[i] {
    }
    assert |s[lo..hi]| == |t[lo..hi]|;
  }

  lemma Spliced(a: seq<byte>, m: seq<byte>, z: seq<byte>, lo: nat, hi: nat)
    requires lo <= |a| && |a| + |m| <= hi <= |a| + |m| + |z|
    ensures (a + m + z)[lo..hi] == a[lo..] + m + z[..hi - |a| - |m|]
  {
  }

  // ------------------------------------------------------------------ all subsections

  /** `cuts` tiles the section, and no relocation straddles a cut. */
  ghost predicate Tiling(relocs: seq<Reloc>, n: nat, cuts: seq<nat>) {
    |cuts| > 0 && cuts[0] == 0 && cuts[|cuts| - 1] == n &&
      (forall i :: 0 < i < |cuts| ==> cuts[i - 1] < cuts[i] <= n) &&
    forall i :: 0 <= i < |cuts| ==> Inside(relocs, 0, cuts[i])
  }

  lemma InsideBetween(relocs: seq<Reloc>, lo: nat, hi: nat)
    requires Inside(relocs, 0, hi)
    ensures Inside(relocs, lo, hi)
  {
  }

  /** Relocations from `k` on do not reach below where they start. */
  lemma {:induction false} AfterWindow(patch: Patch, sec: seq<byte>, relocs: seq<Reloc>, hi: nat, k: nat, j: nat)
    requires PatchOk(patch) && Inside(relocs, 0, |sec|) && hi <= |sec| && k <= j <= |relocs|
    requires forall i :: k <= i < j ==> relocs[i].va >= hi
    ensures Whole(patch, sec, relocs, j)[..hi] == Whole(patch, sec, relocs, k)[..hi]
    decreases j
  {
    if k < j {
      var i := j - 1;
      AfterWindow(patch, sec, relocs, hi, k, i);
      if relocs[i].va < |sec| {
        var before := Whole(patch, sec, relocs, i);
        AppliedOutside(patch, before, relocs[i], 0, hi);
        assert Whole(patch, sec, relocs, j)[..hi] == Whole(patch, sec, relocs,
          j)[0..hi] == before[0..hi] == before[..hi];
      }
    }
  }

  /** Relocating the pieces one after the other, with the index carried along, gives the bytes that
      relocating the section gives, and ends at the first relocation past its end. */
  method WriteAll(patch: Patch, sec: seq<byte>, relocs: seq<Reloc>, cuts: seq<nat>)
    returns (bytes: seq<byte>, next: nat)
    requires PatchOk(patch) && Sorted(relocs) && Inside(relocs, 0, |sec|) && Tiling(relocs, |sec|, cuts)
    ensures bytes == Whole(patch, sec, relocs, |relocs|) && next == FirstAt(relocs, 0, |sec|)
    ensures NoOverlap(relocs, |sec|) ==> Written(patch, sec, |sec|, relocs, |relocs|, bytes)
  {
    bytes, next := [], 0;
    var i := 1;
    while i < |cuts|
      invariant 0 < i <= |cuts| && next == FirstAt(relocs, 0, cuts[i - 1])
      invariant bytes == Whole(patch, sec, relocs, next)[..cuts[i - 1]]
    {
      var lo, hi := cuts[i - 1], cuts[i];
      InsideBetween(relocs, lo, hi);
      var buf := new byte[hi - lo];
      var before := next;
      next := WriteSubsection(patch, sec, relocs, lo, hi, before, buf);
      FromCut(relocs, lo, before);
      AfterWindow(patch, sec, relocs, lo, before, next);
      bytes := bytes + buf[..];
      assert bytes == Whole(patch, sec, relocs, next)[..hi];
      i := i + 1;
    }
    assert i == |cuts|;
    FromCut(relocs, |sec|, next);
    AfterWindow(patch, sec, relocs, |sec|, next, |relocs|);
    var all := Whole(patch, sec, relocs, |relocs|);
    assert all[..|sec|] == all;
    if NoOverlap(relocs, |sec|) {
      WholeWrites(patch, sec, relocs);
    }
  }

  lemma FirstAtMonotone(relocs: seq<Reloc>, i: nat, lo: nat, hi: nat)
    requires i <= |relocs| && lo <= hi
    ensures FirstAt(relocs, i, lo) <= FirstAt(relocs, i, hi)
    decreases |relocs| - i
  {
    if i < |relocs| {
      FirstAtMonotone(relocs, i + 1, lo, hi);
    }
  }

  /** From the first relocation at a cut on none starts before it. */
  lemma FromCut(relocs: seq<Reloc>, cut: nat, k: nat)
    requires Sorted(relocs) && k == FirstAt(relocs, 0, cut)
    ensures forall i :: k <= i < |relocs| ==> relocs[i].va >= cut
  {
  }
}
