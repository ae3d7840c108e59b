/** The whole import table: merging per DLL, construction DLL by DLL, and what the loaders find. */
module ImportImage {
  import opened Collections
  import opened ImportFiles
  import opened ImportTable

  // ------------------------------------------------------------------ the lists of files

  /** The imports binned by DLL: no bin is empty, and no file is in two places. */
  ghost predicate Bins(m: Machine, files: Files, v: seq<seq<nat>>) {
    (forall d :: 0 <= d < |v| ==> v[d] != [] && Listed(files, v[d])) &&
    Apart(v) &&
    (m == Plain ==> forall d, i :: 0 <= d < |v| && 0 <= i < |v[d]| ==> !files[v[d][i]].ec)
  }

  /** The files of one DLL in the order of its tables. */
  function FinalList(m: Machine, files: Files, syms: seq<nat>): (r: seq<nat>)
    requires Listed(files, syms)
    ensures Inside(files, r)
  {
    if m == Plain then syms
    else SortByKind(files, Pairs(files, syms, |syms|), Kept(files, syms, |syms|))
  }

  function FinalPairs(m: Machine, files: Files, syms: seq<nat>): Partners
    requires Listed(files, syms)
  {
    if m == Plain then map[] else Pairs(files, syms, |syms|)
  }

  /** What `hybrid` says about the files of one DLL is what merging them has found. */
  ghost predicate AgreesOn(hybrid: Partners, pairs: Partners, syms: seq<nat>) {
    forall x :: x in syms ==> (x in hybrid <==> x in pairs) && (x in pairs ==> hybrid[x] == pairs[x])
  }

  lemma PairsOf(m: Machine, files: Files, syms: seq<nat>, x: nat)
    requires Listed(files, syms) && x in FinalPairs(m, files, syms)
    ensures x in syms && FinalPairs(m, files, syms)[x] in syms
  {
    PairsInside(files, syms, |syms|, x);
    PartnersAgree(files, syms, |syms|, x);
    PairsInside(files, syms, |syms|, Pairs(files, syms, |syms|)[x]);
  }

  /** Merges and sorts the imports of all DLLs. */
  method MergeAll(m: Machine, files: Files, v: seq<seq<nat>>) returns (lists: seq<seq<nat>>, hybrid: Partners)
    requires Bins(m, files, v)
    ensures lists == FinalLists(m, files, v)
    ensures forall d :: 0 <= d < |v| ==> AgreesOn(hybrid, FinalPairs(m, files, v[d]), v[d])
  {
    lists, hybrid := [], map[];
    ghost var all := FinalLists(m, files, v);
    var d := 0;
    while d < |v|
      invariant d <= |v| && lists == all[..d] && PairsMerged(m, files, v, d, hybrid)
    {
      var next := d + 1;
      var syms;
      syms, hybrid := MergeOne(m, files, v, d, next, hybrid);
      ListsStep(all, d, next);
      lists := lists + [syms];
      d := next;
    }
    assert d == |v|;
  }

  /** The files of all DLLs in the order of their tables. */
  function FinalLists(m: Machine, files: Files, v: seq<seq<nat>>): (r: seq<seq<nat>>)
    requires Bins(m, files, v)
    ensures |r| == |v| && forall d :: 0 <= d < |v| ==> r[d] == FinalList(m, files, v[d])
  {
    seq(|v|, d requires 0 <= d < |v| => FinalList(m, files, v[d]))
  }

  lemma ListsStep(all: seq<seq<nat>>, d: nat, next: nat)
    requires d < |all| && next == d + 1
    ensures all[..next] == all[..d] + [all[d]]
  {
  }

  /** The partners are those of the first `d` DLLs. */
  ghost predicate PairsMerged(m: Machine, files: Files, v: seq<seq<nat>>, d: nat, hybrid: Partners)
    requires Bins(m, files, v) && d <= |v|
  {
    (forall e :: 0 <= e < d ==> AgreesOn(hybrid, FinalPairs(m, files, v[e]), v[e])) &&
    forall x :: x in hybrid ==> exists e :: 0 <= e < d && x in v[e]
  }

  /** Merges and sorts the imports of one DLL. */
  method MergeOne(m: Machine, files: Files, v: seq<seq<nat>>, d: nat, next: nat, before: Partners)
    returns (syms: seq<nat>, hybrid: Partners)
    requires Bins(m, files, v) && d < |v| && next == d + 1 && PairsMerged(m, files, v, d, before)
    ensures syms == FinalList(m, files, v[d]) && PairsMerged(m, files, v, next, hybrid)
  {
    syms, hybrid := v[d], before;
    if m != Plain {
      syms, hybrid := MergeHybrid(files, syms, before);
      PairsElsewhere(m, files, v, d, next, before, hybrid);
      SortAgrees(files, v[d], hybrid, syms);
      syms := SortByKind(files, hybrid, syms);
    } else {
      PlainPairs(m, files, v, d, next, hybrid);
    }
  }

  lemma PlainPairs(m: Machine, files: Files, v: seq<seq<nat>>, d: nat, next: nat, hybrid: Partners)
    requires Bins(m, files, v) && d < |v| && next == d + 1 && m == Plain && PairsMerged(m, files, v, d, hybrid)
    ensures PairsMerged(m, files, v, next, hybrid)
  {
    forall x | x in v[d] ensures x !in hybrid {
    }
  }

  /** Merging one DLL changes nothing for the others. */
  lemma PairsElsewhere(m: Machine, files: Files, v: seq<seq<nat>>, d: nat, next: nat, before: Partners,
                       hybrid: Partners)
    requires Bins(m, files, v) && d < |v| && next == d + 1 && m != Plain && PairsMerged(m, files, v, d, before)
    requires hybrid == before + FinalPairs(m, files, v[d])
    ensures PairsMerged(m, files, v, next, hybrid)
    ensures AgreesOn(hybrid, FinalPairs(m, files, v[d]), v[d])
  {
    var more := FinalPairs(m, files, v[d]);
    forall x | x in more ensures x in v[d] {
      PairsOf(m, files, v[d], x);
    }
    NewAgrees(v, d, before, more);
    forall e | 0 <= e < d ensures AgreesOn(hybrid, FinalPairs(m, files, v[e]), v[e]) {
      StillAgrees(before, more, FinalPairs(m, files, v[e]), v[e]);
    }
  }

  /** Files of different DLLs are different. */
  ghost predicate Apart(v: seq<seq<nat>>) {
    forall d, e, x :: 0 <= d < e < |v| && x in v[d] ==> x !in v[e]
  }

  lemma NewAgrees(v: seq<seq<nat>>, d: nat, before: Partners, more: Partners)
    requires Apart(v) && d < |v| && (forall x :: x in more ==> x in v[d])
    requires forall x :: x in before ==> exists e :: 0 <= e < d && x in v[e]
    ensures AgreesOn(before + more, more, v[d])
    ensures forall e, x :: 0 <= e < d && x in v[e] ==> x !in more
    ensures forall x :: x in before + more ==> exists e :: 0 <= e <= d && x in v[e]
  {
  }

  lemma StillAgrees(before: Partners, more: Partners, pairs: Partners, syms: seq<nat>)
    requires AgreesOn(before, pairs, syms) && forall x :: x in syms ==> x !in more
    ensures AgreesOn(before + more, pairs, syms)
  {
  }

  lemma SortAgrees(files: Files, syms: seq<nat>, hybrid: Partners, kept: seq<nat>)
    requires Listed(files, syms) && kept == Kept(files, syms, |syms|) &&
      AgreesOn(hybrid, Pairs(files, syms, |syms|), syms)
    ensures Inside(files, kept) &&
      SortByKind(files, hybrid, kept) == SortByKind(files, Pairs(files, syms, |syms|), kept)
  {
    var pairs := Pairs(files, syms, |syms|);
    forall i | 0 <= i < |kept| ensures kept[i] in hybrid <==> kept[i] in pairs {
      KeptInside(files, syms, |syms|, kept[i]);
    }
    SortSame(files, hybrid, pairs, kept, 0);
    SortSame(files, hybrid, pairs, kept, 1);
    SortSame(files, hybrid, pairs, kept, 2);
  }

  // ------------------------------------------------------------------ the lists are well formed

  /** How often `x` is in the final list, and how often it has been swallowed. */
  lemma FinalCounts(m: Machine, files: Files, syms: seq<nat>, x: nat)
    requires Listed(files, syms) && m != Plain
    ensures multiset(FinalList(m, files, syms))[x] + multiset(Swallowed(files, syms, |syms|))[x] ==
      multiset(syms)[x] <= 1
  {
    var pairs, kept := Pairs(files, syms, |syms|), Kept(files, syms, |syms|);
    SortPermutes(files, pairs, kept);
    FilesConserved(files, syms, |syms|);
    assert syms[..|syms|] == syms;
    var a: multiset<nat>, b: multiset<nat> := multiset(kept), multiset(Swallowed(files, syms, |syms|));
    assert (a + b)[x] == multiset(syms)[x];
    DistinctCounts(syms, x);
  }

  lemma FinalDistinct(m: Machine, files: Files, syms: seq<nat>)
    requires Listed(files, syms)
    ensures Distinct(FinalList(m, files, syms))
  {
    if m != Plain {
      forall x: nat ensures multiset(FinalList(m, files, syms))[x] <= 1 {
        FinalCounts(m, files, syms, x);
      }
      NoRepeats(FinalList(m, files, syms));
    }
  }

  /** Every file of the final list comes from the input, and its partner, if it has one, does not
      appear in the list. */
  lemma FinalOwner(m: Machine, files: Files, syms: seq<nat>, x: nat)
    requires Listed(files, syms) && x in FinalList(m, files, syms)
    ensures x in syms && x < |files|
    ensures x in FinalPairs(m, files, syms) ==>
      var y := FinalPairs(m, files, syms)[x];
      files[x].ec && y < |files| && !files[y].ec && y !in FinalList(m, files, syms) && y in syms &&
      y in FinalPairs(m, files, syms) && FinalPairs(m, files, syms)[y] == x
  {
    if m != Plain {
      var pairs := Pairs(files, syms, |syms|);
      FinalCounts(m, files, syms, x);
      assert x in multiset(syms);
      if x in pairs {
        PartnersAgree(files, syms, |syms|, x);
        PairsOf(m, files, syms, x);
        var y := pairs[x];
        KeptIsEc(files, syms, |syms|, x);
        KeptIsEc(files, syms, |syms|, y);
        SortPermutes(files, pairs, Kept(files, syms, |syms|));
        assert x in multiset(Kept(files, syms, |syms|));
        assert y in multiset(Swallowed(files, syms, |syms|));
        FinalCounts(m, files, syms, y);
      }
    }
  }

  lemma FinalOwners(m: Machine, files: Files, syms: seq<nat>, hybrid: Partners)
    requires Listed(files, syms) && AgreesOn(hybrid, FinalPairs(m, files, syms), syms)
    ensures Owners(hybrid, FinalList(m, files, syms))
  {
    FinalDistinct(m, files, syms);
    var r := FinalList(m, files, syms);
    forall j | 0 <= j < |r| && r[j] in hybrid
      ensures var y := hybrid[r[j]]; y !in r && y in hybrid && hybrid[y] == r[j]
    {
      FinalOwner(m, files, syms, r[j]);
    }
  }

  // ------------------------------------------------------------------ DLL by DLL

  /** Everything the construction has produced. */
  datatype Image = Image(made: Made, t: Tables, dirs: seq<Dir>, relocs: seq<Fixup>,
                         loc: map<nat, nat>, aux: map<nat, nat>, copy: map<nat, nat>)

  ghost function ImageOf(c: IdataContents): Image
    reads c
  {
    Image(c.Now(), c.Laid(), c.dirs, c.relocs, c.location, c.auxLocation, c.auxCopyLocation)
  }

  /** Where the tables of DLL `d` start. */
  ghost function Base(lists: seq<seq<nat>>, d: nat): nat
    requires d <= |lists|
  {
    if d == 0 then 0 else Base(lists, d - 1) + |lists[d - 1]| + 1
  }

  /** The files of each DLL and their partners are nobody else's. */
  ghost predicate ListsOk(m: Machine, files: Files, hybrid: Partners, lists: seq<seq<nat>>) {
    (forall d :: 0 <= d < |lists| ==> ListOk(m, files, hybrid, lists[d])) &&
    forall d, e, x :: 0 <= d < |lists| && 0 <= e < |lists| && d != e && x in lists[d] ==> !Owned(hybrid, lists[e], x)
  }

  ghost predicate ListOk(m: Machine, files: Files, hybrid: Partners, syms: seq<nat>) {
    syms != [] && Inside(files, syms) && Owners(hybrid, syms) &&
    (m == Plain ==> forall i :: 0 <= i < |syms| ==> !files[syms[i]].ec)
  }

  /** DLL `d` is complete: its slots, its directory entry, and the places of its symbols. */
  ghost predicate DllAt(r: Image, m: Machine, files: Files, hybrid: Partners, syms: seq<nat>, base: nat, d: nat)
    requires ListOk(m, files, hybrid, syms)
  {
    DllOk(r.made, r.t, m, files, hybrid, syms, base) &&
    d < |r.dirs| && r.dirs[d] == DirOf(r.t, m, files, syms, base) &&
    forall j :: 0 <= j < |syms| ==> PlacesOk(r, files, hybrid, syms[j], base + j)
  }

  /** The import symbol of file `s` and of its partner, and for an EC file the two auxiliary symbols. */
  ghost predicate PlacesOk(r: Image, files: Files, hybrid: Partners, s: nat, at: nat)
    requires s < |files|
  {
    at < |r.t.addresses| && LocatedBoth(r.loc, hybrid, s, r.t.addresses[at]) &&
    LocatedAt(r.aux, files, s, r.t.aux, at) && LocatedAt(r.copy, files, s, r.t.auxCopy, at)
  }

  /** The first `d` DLLs are complete, and nothing else has been made. */
  ghost predicate ImageOk(r: Image, m: Machine, files: Files, hybrid: Partners, lists: seq<seq<nat>>, d: nat)
    requires ListsOk(m, files, hybrid, lists) && d <= |lists|
  {
    Parallel(r.t, m) && |r.t.lookups| == Base(lists, d) && |r.dirs| == d &&
    Unique(r.t, [], |r.made.chunks|) &&
    (forall e :: 0 <= e < d ==> DllAt(r, m, files, hybrid, lists[e], Base(lists, e), e)) &&
    forall dir: nat, field: Field :: Moved(r.relocs, dir, field) == if dir < d then EcSkip(m, files, lists[dir]) else 0
  }

  /** What `CreateDll` promises, by value. */
  ghost predicate DllAdded(r: Image, u: Image, m: Machine, files: Files, hybrid: Partners, syms: seq<nat>)
    requires ListOk(m, files, hybrid, syms)
  {
    var base := |r.t.lookups|;
    Follows(r.t, u.t) && DllOk(u.made, u.t, m, files, hybrid, syms, base) && |u.t.lookups| == base + |syms| + 1 &&
    LocatedAs(r.aux, u.aux, files, syms, u.t.aux, base, |syms|) &&
    LocatedAs(r.copy, u.copy, files, syms, u.t.auxCopy, base, |syms|) &&
    Located(r.loc, u.loc, hybrid, syms, u.t.addresses, base, |syms|) &&
    u.dirs == r.dirs + [DirOf(u.t, m, files, syms, base)] &&
      MovesDir(r.relocs, u.relocs, |r.dirs|, EcSkip(m, files, syms)) &&
    Grown(r.made, u.made) && Unique(u.t, [], |u.made.chunks|)
  }

  lemma NewPlaces(r: Image, u: Image, files: Files, hybrid: Partners, syms: seq<nat>, base: nat)
    requires Inside(files, syms) && base + |syms| <= |u.t.addresses|
    requires LocatedAs(r.aux, u.aux, files, syms, u.t.aux, base, |syms|)
    requires LocatedAs(r.copy, u.copy, files, syms, u.t.auxCopy, base, |syms|)
    requires Located(r.loc, u.loc, hybrid, syms, u.t.addresses, base, |syms|)
    ensures forall j :: 0 <= j < |syms| ==> PlacesOk(u, files, hybrid, syms[j], base + j)
  {
    forall j | 0 <= j < |syms| ensures PlacesOk(u, files, hybrid, syms[j], base + j) {
      assert LocatedBoth(u.loc, hybrid, syms[j], u.t.addresses[base + j]);
      assert LocatedAt(u.aux, files, syms[j], u.t.aux, base + j) &&
        LocatedAt(u.copy, files, syms[j], u.t.auxCopy, base + j);
    }
  }

  lemma NewDll(r: Image, u: Image, m: Machine, files: Files, hybrid: Partners, syms: seq<nat>, base: nat, d: nat)
    requires ListOk(m, files, hybrid, syms) && DllAdded(r, u, m, files, hybrid, syms) && base == |r.t.lookups| &&
      d == |r.dirs|
    ensures DllAt(u, m, files, hybrid, syms, base, d)
  {
    NewPlaces(r, u, files, hybrid, syms, base);
  }

  /** A DLL that is complete stays so when another one is added. */
  lemma OldDll(r: Image, u: Image, m: Machine, files: Files, hybrid: Partners, syms: seq<nat>, base: nat, d: nat,
               more: seq<nat>)
    requires ListOk(m, files, hybrid, syms) && ListOk(m, files, hybrid, more) && Parallel(r.t, m)
    requires DllAt(r, m, files, hybrid, syms, base, d) && DllAdded(r, u, m, files, hybrid, more)
    requires forall x :: x in syms ==> !Owned(hybrid, more, x)
    ensures DllAt(u, m, files, hybrid, syms, base, d)
  {
    DllGrows(r.made, u.made, r.t, u.t, m, files, hybrid, syms, base);
    forall j | 0 <= j < |syms| ensures PlacesOk(u, files, hybrid, syms[j], base + j) {
      var s := syms[j];
      assert s in syms;
      assert PlacesOk(r, files, hybrid, s, base + j);
      if s in hybrid {
        assert !Owned(hybrid, more, hybrid[s]);
      }
    }
  }

  lemma ImageStep(r: Image, u: Image, m: Machine, files: Files, hybrid: Partners, lists: seq<seq<nat>>, d: nat,
                  next: nat)
    requires ListsOk(m, files, hybrid, lists) && d < |lists| && next == d + 1
    requires ImageOk(r, m, files, hybrid, lists, d) && DllAdded(r, u, m, files, hybrid, lists[d])
    ensures ImageOk(u, m, files, hybrid, lists, next)
  {
    forall e | 0 <= e < next ensures DllAt(u, m, files, hybrid, lists[e], Base(lists, e), e) {
      EachDll(r, u, m, files, hybrid, lists, d, e, Base(lists, e));
    }
    BaseStep(lists, d, next);
    assert Parallel(u.t, m) by { assert DllAt(u, m, files, hybrid, lists[d], Base(lists, d), d); }
    MovesStep(r, u, m, files, hybrid, lists, d, next);
  }

  lemma EachDll(r: Image, u: Image, m: Machine, files: Files, hybrid: Partners, lists: seq<seq<nat>>, d: nat, e: nat,
                base: nat)
    requires ListsOk(m, files, hybrid, lists) && e <= d < |lists| && base == Base(lists, e)
    requires ImageOk(r, m, files, hybrid, lists, d) && DllAdded(r, u, m, files, hybrid, lists[d])
    ensures DllAt(u, m, files, hybrid, lists[e], base, e)
  {
    if e == d {
      NewDll(r, u, m, files, hybrid, lists[d], base, d);
    } else {
      OldDll(r, u, m, files, hybrid, lists[e], base, e, lists[d]);
    }
  }

  lemma BaseStep(lists: seq<seq<nat>>, d: nat, next: nat)
    requires d < |lists| && next == d + 1
    ensures Base(lists, next) == Base(lists, d) + |lists[d]| + 1
  {
  }

  lemma MovesStep(r: Image, u: Image, m: Machine, files: Files, hybrid: Partners, lists: seq<seq<nat>>, d: nat,
                  next: nat)
    requires ListsOk(m, files, hybrid, lists) && d < |lists| && next == d + 1 && ImageOk(r, m, files, hybrid, lists, d)
    requires MovesDir(r.relocs, u.relocs, d, EcSkip(m, files, lists[d]))
    ensures forall dir: nat, field: Field ::
      Moved(u.relocs, dir, field) == if dir < next then EcSkip(m, files, lists[dir]) else 0
  {
  }

  // ------------------------------------------------------------------ the construction

  lemma ListsAreOk(m: Machine, files: Files, v: seq<seq<nat>>, hybrid: Partners, lists: seq<seq<nat>>)
    requires Bins(m, files, v) && lists == FinalLists(m, files, v)
    requires forall d :: 0 <= d < |v| ==> AgreesOn(hybrid, FinalPairs(m, files, v[d]), v[d])
    ensures ListsOk(m, files, hybrid, lists)
  {
    forall d | 0 <= d < |lists| ensures ListOk(m, files, hybrid, lists[d]) {
      FinalOwners(m, files, v[d], hybrid);
      FinalNonempty(m, files, v[d]);
    }
    forall d, e, x | 0 <= d < |lists| && 0 <= e < |lists| && d != e && x in lists[d]
      ensures !Owned(hybrid, lists[e], x) {
      FinalElsewhere(m, files, v, hybrid, d, e, x);
    }
  }

  lemma FinalNonempty(m: Machine, files: Files, syms: seq<nat>)
    requires Listed(files, syms) && syms != []
    ensures FinalList(m, files, syms) != []
  {
    if m != Plain {
      SortPermutes(files, Pairs(files, syms, |syms|), Kept(files, syms, |syms|));
      assert |multiset(FinalList(m, files, syms))| == |multiset(Kept(files, syms, |syms|))|;
    }
  }

  lemma FinalElsewhere(m: Machine, files: Files, v: seq<seq<nat>>, hybrid: Partners, d: nat, e: nat, x: nat)
    requires Bins(m, files, v) && d < |v| && e < |v| && d != e && x in FinalList(m, files, v[d])
    requires AgreesOn(hybrid, FinalPairs(m, files, v[d]), v[d])
    ensures !Owned(hybrid, FinalList(m, files, v[e]), x)
  {
    FinalOwner(m, files, v[d], x);
    assert x !in v[e];
    if x in FinalList(m, files, v[e]) {
      FinalOwner(m, files, v[e], x);
    }
    if x in hybrid {
      var y := hybrid[x];
      assert y in v[d] && y !in v[e];
      if y in FinalList(m, files, v[e]) {
        FinalOwner(m, files, v[e], y);
      }
    }
  }

  method AddDll(c: IdataContents, m: Machine, files: Files, hybrid: Partners, syms: seq<nat>)
    requires ListOk(m, files, hybrid, syms)
    requires Targets(c.relocs, |c.chunks|) && Unique(c.Laid(), [], |c.chunks|) && Parallel(c.Laid(), m)
    modifies c
    ensures DllAdded(old(ImageOf(c)), ImageOf(c), m, files, hybrid, syms) && Targets(c.relocs, |c.chunks|)
  {
    c.CreateDll(m, files, hybrid, syms);
  }

  /** The tables and directory entries of all DLLs. */
  method CreateDlls(m: Machine, files: Files, hybrid: Partners, lists: seq<seq<nat>>) returns (c: IdataContents)
    requires ListsOk(m, files, hybrid, lists)
    ensures fresh(c) && ImageOk(ImageOf(c), m, files, hybrid, lists, |lists|)
  {
    c := new IdataContents();
    ghost var r := ImageOf(c);
    var d := 0;
    while d < |lists|
      invariant d <= |lists| && ImageOf(c) == r && ImageOk(r, m, files, hybrid, lists, d) &&
        Targets(c.relocs, |c.chunks|)
      invariant fresh(c)
    {
      var next := d + 1;
      AddDll(c, m, files, hybrid, lists[d]);
      ghost var u := ImageOf(c);
      ImageStep(r, u, m, files, hybrid, lists, d, next);
      r := u;
      d := next;
    }
    assert d == |lists|;
  }

  /** `IdataContents::create`. */
  method Create(m: Machine, files: Files, v: seq<seq<nat>>)
    returns (c: IdataContents, lists: seq<seq<nat>>, hybrid: Partners)
    requires Bins(m, files, v)
    ensures lists == FinalLists(m, files, v)
    ensures forall d :: 0 <= d < |v| ==> AgreesOn(hybrid, FinalPairs(m, files, v[d]), v[d])
    ensures ListsOk(m, files, hybrid, lists)
    ensures |c.dirs| == |v| + 1 && c.dirs[|v|] == DirEnd
    ensures ImageOk(ImageOf(c).(dirs := c.dirs[..|v|]), m, files, hybrid, lists, |v|)
  {
    lists, hybrid := MergeAll(m, files, v);
    ListsAreOk(m, files, v, hybrid, lists);
    c := CreateDlls(m, files, hybrid, lists);
    ghost var r := ImageOf(c);
    c.dirs := c.dirs + [DirEnd];
    assert c.dirs[..|v|] == r.dirs;
    assert ImageOf(c).(dirs := r.dirs) == r;
  }
}
