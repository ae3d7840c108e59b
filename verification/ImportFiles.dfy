/** Import files of one DLL, and the merging of native and EC files that import the same thing. */
module ImportFiles {
  import opened Options

  /** `ec` tells files of the EC namespace from native ones; `ordinal` is the ordinal or the hint. */
  datatype ImportFile = ImportFile(dllName: string, externalName: string, ordinal: nat, ec: bool)

  /** What the loader is asked for. */
  datatype Import = ByName(name: string) | ByOrdinal(ordinal: nat)

  /** Files are numbered; equal numbers mean the same file. */
  type Files = seq<ImportFile>

  function ImportOf(f: ImportFile): Import {
    if f.externalName == "" then ByOrdinal(f.ordinal) else ByName(f.externalName)
  }

  /** `isSameImport`: a file without a name looks at the ordinal or hint of the other one only. */
  predicate SameImport(f: ImportFile, other: ImportFile) {
    if f.externalName != "" then other.externalName == f.externalName else f.ordinal == other.ordinal
  }

  /** The test is right unless the file on the left imports by ordinal, the other one by name, and
      the hint of the name happens to be that ordinal. */
  lemma SameImportExact(f: ImportFile, other: ImportFile)
    ensures SameImport(f, other) <==>
      ImportOf(f) == ImportOf(other) || (f.externalName == "" && other.externalName != "" && f.ordinal == other.ordinal)
  {
  }

  /** A name with hint 5 is taken for ordinal 5, but not the other way round. */
  lemma SameImportIsNotSymmetric()
    ensures var f, g := ImportFile("a.dll", "", 5, false), ImportFile("a.dll", "foo", 5, true);
      SameImport(f, g) && !SameImport(g, f) && ImportOf(f) != ImportOf(g)
  {
  }

  // ------------------------------------------------------------------ merging

  ghost predicate Listed(files: Files, syms: seq<nat>) {
    (forall i :: 0 <= i < |syms| ==> syms[i] < |files|) && forall i, j :: 0 <= i < j < |syms| ==> syms[i] != syms[j]
  }

  /** The later file and the earlier one can become one hybrid file. */
  predicate Compatible(files: Files, file: nat, prev: nat)
    requires file < |files| && prev < |files|
  {
    files[file].ec != files[prev].ec && SameImport(files[file], files[prev])
  }

  /** File `k` is merged with the one before it: the two are compatible, and that one has not been
      merged with its own predecessor. */
  predicate Joins(files: Files, syms: seq<nat>, k: nat)
    requires Listed(files, syms) && k < |syms|
  {
    k > 0 && !Joins(files, syms, k - 1) && Compatible(files, syms[k], syms[k - 1])
  }

  /** Of the files up to `k` one per pair is kept, the EC one, and all others. */
  function Kept(files: Files, syms: seq<nat>, k: nat): (r: seq<nat>)
    requires Listed(files, syms) && k <= |syms|
    ensures forall i :: 0 <= i < |r| ==> r[i] < |files|
  {
    if k == 0 then []
    else if Joins(files, syms, k - 1)
      then Kept(files, syms, k - 2) + [if files[syms[k - 1]].ec then syms[k - 1] else syms[k - 2]]
    else Kept(files, syms, k - 1) + [syms[k - 1]]
  }

  type Partners = map<nat, nat>

  /** The pairs among the first `k` files, entered in both directions. */
  function Pairs(files: Files, syms: seq<nat>, k: nat): Partners
    requires Listed(files, syms) && k <= |syms|
  {
    if k == 0 then map[]
    else if Joins(files, syms, k - 1)
      then Pairs(files, syms, k - 1)[syms[k - 2] := syms[k - 1]][syms[k - 1] := syms[k - 2]]
    else Pairs(files, syms, k - 1)
  }

  /** The merge loop of `create` over the files of one DLL. */
  method MergeHybrid(files: Files, syms: seq<nat>, partners: Partners) returns (hybrid: seq<nat>, result: Partners)
    requires Listed(files, syms)
    ensures hybrid == Kept(files, syms, |syms|)
    ensures result == partners + Pairs(files, syms, |syms|)
  {
    hybrid, result := [], partners;
    var prev := None;
    var k := 0;
    while k < |syms|
      invariant 0 <= k <= |syms| && hybrid == Kept(files, syms, k) && result == partners + Pairs(files, syms, k)
      invariant prev == if k > 0 && !Joins(files, syms, k - 1) then Some(syms[k - 1]) else None
    {
      var file, next := syms[k], k + 1;
      KeptStep(files, syms, k, next);
      if prev.None? || files[file].ec == files[prev.value].ec || !SameImport(files[file], files[prev.value]) {
        hybrid := hybrid + [file];
        prev := Some(file);
      } else {
        if files[file].ec {
          hybrid := hybrid[..|hybrid| - 1];
          hybrid := hybrid + [file];
        }
        result := result[prev.value := file][file := prev.value];
        prev := None;
      }
      k := next;
    }
    assert k == |syms|;
  }

  lemma KeptStep(files: Files, syms: seq<nat>, k: nat, next: nat)
    requires Listed(files, syms) && k < |syms| && next == k + 1
    ensures Joins(files, syms, k) ==> k > 0 && Compatible(files, syms[k], syms[k - 1]) && !Joins(files, syms, k - 1)
    ensures k > 0 && !Joins(files, syms, k - 1) && Compatible(files, syms[k], syms[k - 1]) ==> Joins(files, syms, k)
    ensures Joins(files, syms, k) ==>
      var kept, pairs := Kept(files, syms, k), Pairs(files, syms, k);
      kept != [] && kept[|kept| - 1] == syms[k - 1] &&
      Kept(files, syms, next) == kept[..|kept| - 1] + [if files[syms[k]].ec then syms[k] else syms[k - 1]] &&
      Pairs(files, syms, next) == pairs[syms[k - 1] := syms[k]][syms[k] := syms[k - 1]]
    ensures !Joins(files, syms, k) ==>
      Kept(files, syms, next) == Kept(files, syms, k) + [syms[k]] && Pairs(files, syms, next) == Pairs(files, syms, k)
  {
  }

  // ------------------------------------------------------------------ what merging keeps

  /** The native halves of the pairs. */
  ghost function Swallowed(files: Files, syms: seq<nat>, k: nat): (r: seq<nat>)
    requires Listed(files, syms) && k <= |syms|
  {
    if k == 0 then []
    else if Joins(files, syms, k - 1)
      then Swallowed(files, syms, k - 2) + [if files[syms[k - 1]].ec then syms[k - 2] else syms[k - 1]]
    else Swallowed(files, syms, k - 1)
  }

  /** No file is lost or doubled. */
  lemma {:induction false} FilesConserved(files: Files, syms: seq<nat>, k: nat)
    requires Listed(files, syms) && k <= |syms|
    ensures Conserved(Kept(files, syms, k), Swallowed(files, syms, k), syms[..k])
    decreases k
  {
    if k > 0 {
      var i: nat := k - 1;
      if Joins(files, syms, i) {
        var j: nat := i - 1;
        FilesConserved(files, syms, j);
        JoinConserves(files, syms, j, i, k);
      } else {
        FilesConserved(files, syms, i);
        AddConserves(files, syms, i, k);
      }
    }
  }

  /** The kept and the swallowed files are all files. */
  ghost predicate Conserved(kept: seq<nat>, swallowed: seq<nat>, all: seq<nat>) {
    multiset(kept) + multiset(swallowed) == multiset(all)
  }

  lemma JoinConserves(files: Files, syms: seq<nat>, j: nat, i: nat, k: nat)
    requires Listed(files, syms) && k <= |syms| && i == j + 1 && k == i + 1 && Joins(files, syms, i)
    requires Conserved(Kept(files, syms, j), Swallowed(files, syms, j), syms[..j])
    ensures Conserved(Kept(files, syms, k), Swallowed(files, syms, k), syms[..k])
  {
    var prev, file := syms[j], syms[i];
    JoinParts(files, syms, j, i, k);
    assert syms[..k] == syms[..j] + [prev, file];
    var kept, swallowed := if files[file].ec then file else prev, if files[file].ec then prev else file;
    PairConserved(Kept(files, syms, j), Swallowed(files, syms, j), syms[..j], kept, swallowed, prev, file);
  }

  lemma JoinParts(files: Files, syms: seq<nat>, j: nat, i: nat, k: nat)
    requires Listed(files, syms) && k <= |syms| && i == j + 1 && k == i + 1 && Joins(files, syms, i)
    ensures Kept(files, syms, k) == Kept(files, syms, j) + [if files[syms[i]].ec then syms[i] else syms[j]]
    ensures Swallowed(files, syms, k) == Swallowed(files, syms, j) + [if files[syms[i]].ec then syms[j] else syms[i]]
  {
  }

  lemma AddConserves(files: Files, syms: seq<nat>, i: nat, k: nat)
    requires Listed(files, syms) && k <= |syms| && k == i + 1 && !Joins(files, syms, i)
    requires Conserved(Kept(files, syms, i), Swallowed(files, syms, i), syms[..i])
    ensures Conserved(Kept(files, syms, k), Swallowed(files, syms, k), syms[..k])
  {
    assert syms[..k] == syms[..i] + [syms[i]];
    assert Kept(files, syms, k) == Kept(files, syms, i) + [syms[i]];
    OneConserved(Kept(files, syms, i), Swallowed(files, syms, i), syms[..i], syms[i]);
  }

  lemma PairConserved(kept: seq<nat>, swallowed: seq<nat>, all: seq<nat>, x: nat, y: nat, prev: nat, file: nat)
    requires Conserved(kept, swallowed, all) && ((x == prev && y == file) || (x == file && y == prev))
    ensures Conserved(kept + [x], swallowed + [y], all + [prev, file])
  {
    assert all + [prev, file] == all + [prev] + [file];
  }

  lemma OneConserved(kept: seq<nat>, swallowed: seq<nat>, all: seq<nat>, x: nat)
    requires Conserved(kept, swallowed, all)
    ensures Conserved(kept + [x], swallowed, all + [x])
  {
  }

  /** `x` and its partner `y` are the native and the EC half of a pair, `y` knows `x`, and they
      import the same thing as far as the test between them can tell. */
  ghost predicate IsPair(files: Files, pairs: Partners, x: nat, y: nat) {
    x < |files| && y < |files| && y in pairs && pairs[y] == x && files[x].ec != files[y].ec &&
    (SameImport(files[x], files[y]) || SameImport(files[y], files[x]))
  }

  lemma {:induction false} PairsInside(files: Files, syms: seq<nat>, k: nat, x: nat)
    requires Listed(files, syms) && k <= |syms| && x in Pairs(files, syms, k)
    ensures exists i :: 0 <= i < k && syms[i] == x
    ensures (k > 0 && !Joins(files, syms, k - 1)) ==> x != syms[k - 1]
    decreases k
  {
    if k > 0 && x in Pairs(files, syms, k - 1) {
      PairsInside(files, syms, k - 1, x);
    }
  }

  /** Partners come in pairs. */
  lemma {:induction false} PartnersAgree(files: Files, syms: seq<nat>, k: nat, x: nat)
    requires Listed(files, syms) && k <= |syms| && x in Pairs(files, syms, k)
    ensures IsPair(files, Pairs(files, syms, k), x, Pairs(files, syms, k)[x])
    decreases k
  {
    if k > 0 {
      if !Joins(files, syms, k - 1) {
        PartnersAgree(files, syms, k - 1, x);
      } else if x != syms[k - 1] && x != syms[k - 2] {
        var pairs := Pairs(files, syms, k - 1);
        PartnersAgree(files, syms, k - 1, x);
        NotPairedYet(files, syms, k, pairs[x]);
      }
    }
  }

  /** The two files that are joined last have no other partner. */
  lemma NotPairedYet(files: Files, syms: seq<nat>, k: nat, y: nat)
    requires Listed(files, syms) && 0 < k <= |syms| && Joins(files, syms, k - 1) && y in Pairs(files, syms, k - 1)
    ensures y != syms[k - 1] && y != syms[k - 2]
  {
    PairsInside(files, syms, k - 1, y);
  }

  lemma {:induction false} KeptInside(files: Files, syms: seq<nat>, k: nat, x: nat)
    requires Listed(files, syms) && k <= |syms| && x in Kept(files, syms, k)
    ensures exists i :: 0 <= i < k && syms[i] == x
    decreases k
  {
    if k > 0 {
      if Joins(files, syms, k - 1) {
        if x in Kept(files, syms, k - 2) {
          KeptInside(files, syms, k - 2, x);
        } else {
          assert x == syms[k - 2] || x == syms[k - 1];
        }
      } else if x in Kept(files, syms, k - 1) {
        KeptInside(files, syms, k - 1, x);
      }
    }
  }

  /** Of every pair the EC half is kept, and of the other files all. */
  lemma {:induction false} KeptIsEc(files: Files, syms: seq<nat>, k: nat, x: nat)
    requires Listed(files, syms) && k <= |syms| && x < |files|
    ensures x in Swallowed(files, syms, k) <==> x in Pairs(files, syms, k) && !files[x].ec
    ensures x in Kept(files, syms, k) && x in Pairs(files, syms, k) ==> files[x].ec
    decreases k
  {
    if k > 0 {
      if Joins(files, syms, k - 1) {
        KeptIsEc(files, syms, k - 2, x);
        assert Pairs(files, syms, k - 1) == Pairs(files, syms, k - 2);
        if x in Kept(files, syms, k - 2) {
          KeptInside(files, syms, k - 2, x);
        }
      } else {
        KeptIsEc(files, syms, k - 1, x);
        if x in Pairs(files, syms, k) {
          PairsInside(files, syms, k, x);
        }
      }
    }
  }

  // ------------------------------------------------------------------ merging is complete

  /** File `k` has been paired with the one before it. */
  ghost predicate PairedBack(pairs: Partners, syms: seq<nat>, k: nat)
    requires k < |syms|
  {
    k > 0 && syms[k] in pairs && pairs[syms[k]] == syms[k - 1]
  }

  lemma {:induction false} PairedIsJoined(files: Files, syms: seq<nat>, n: nat, k: nat)
    requires Listed(files, syms) && k < n <= |syms|
    ensures PairedBack(Pairs(files, syms, n), syms, k) <==> Joins(files, syms, k)
    decreases n
  {
    var i: nat := n - 1;
    if k == i {
      LastPaired(files, syms, i, n);
    } else {
      PairedIsJoined(files, syms, i, k);
      EarlierPaired(files, syms, i, n, k);
    }
  }

  lemma LastPaired(files: Files, syms: seq<nat>, i: nat, n: nat)
    requires Listed(files, syms) && n == i + 1 && n <= |syms|
    ensures PairedBack(Pairs(files, syms, n), syms, i) <==> Joins(files, syms, i)
  {
    KeptStep(files, syms, i, n);
    if !Joins(files, syms, i) && syms[i] in Pairs(files, syms, n) {
      PairsInside(files, syms, i, syms[i]);
    }
  }

  /** A later pair does not touch earlier ones. */
  lemma EarlierPaired(files: Files, syms: seq<nat>, i: nat, n: nat, k: nat)
    requires Listed(files, syms) && k < i && n == i + 1 && n <= |syms|
    requires PairedBack(Pairs(files, syms, i), syms, k) <==> Joins(files, syms, k)
    ensures PairedBack(Pairs(files, syms, n), syms, k) <==> Joins(files, syms, k)
  {
    KeptStep(files, syms, i, n);
    if Joins(files, syms, i) {
      assert syms[k] != syms[i];
      if k == i - 1 {
        assert k > 0 ==> syms[k - 1] != syms[i];
      } else {
        assert syms[k] != syms[i - 1];
      }
    }
  }

  /** A file is paired with the one before it exactly if one is EC and the other native, they agree
      (the later one has a name and it is the name of the earlier one, or it has none and the
      ordinals are equal), and the earlier one is not paired with its own predecessor. */
  lemma PairedIff(files: Files, syms: seq<nat>, k: nat)
    requires Listed(files, syms) && 0 < k < |syms|
    ensures var pairs, f, g := Pairs(files, syms, |syms|), files[syms[k]], files[syms[k - 1]];
      (syms[k] in pairs && pairs[syms[k]] == syms[k - 1]) <==>
      (f.ec != g.ec &&
       (if f.externalName != "" then g.externalName == f.externalName else f.ordinal == g.ordinal) &&
       !(k >= 2 && syms[k - 1] in pairs && pairs[syms[k - 1]] == syms[k - 2]))
  {
    PairedIsJoined(files, syms, |syms|, k);
    PairedIsJoined(files, syms, |syms|, k - 1);
  }

  /** Of two neighbours that import the same name, or the same ordinal without a name, one for EC and
      one for native code, at least one has a partner. */
  lemma NeighboursMerge(files: Files, syms: seq<nat>, k: nat)
    requires Listed(files, syms) && 0 < k < |syms| && files[syms[k]].ec != files[syms[k - 1]].ec
    requires files[syms[k]].externalName == files[syms[k - 1]].externalName
    requires files[syms[k]].externalName == "" ==> files[syms[k]].ordinal == files[syms[k - 1]].ordinal
    ensures syms[k] in Pairs(files, syms, |syms|) || syms[k - 1] in Pairs(files, syms, |syms|)
  {
    PairedIff(files, syms, k);
  }

  /** The two halves of a pair import the same thing exactly if both have a name or neither has. */
  lemma PairsImportAlike(files: Files, pairs: Partners, x: nat, y: nat)
    requires IsPair(files, pairs, x, y)
    ensures ImportOf(files[x]) == ImportOf(files[y]) <==> (files[x].externalName == "" <==> files[y].externalName == "")
  {
  }

  // ------------------------------------------------------------------ sorting by kind

  /** Native files, hybrid files, EC files. */
  function Kind(files: Files, pairs: Partners, x: nat): nat
    requires x < |files|
  {
    if x in pairs then 1 else if files[x].ec then 2 else 0
  }

  /** The comparison of the stable sort. */
  predicate Less(files: Files, pairs: Partners, a: nat, b: nat)
    requires a < |files| && b < |files|
  {
    if a in pairs then b !in pairs && files[b].ec else !files[a].ec && files[b].ec
  }

  /** It sorts by kind, as long as hybrid files are represented by their EC half. */
  lemma LessIsKind(files: Files, pairs: Partners, a: nat, b: nat)
    requires a < |files| && b < |files| && (a in pairs ==> files[a].ec) && (b in pairs ==> files[b].ec)
    ensures Less(files, pairs, a, b) <==> Kind(files, pairs, a) < Kind(files, pairs, b)
  {
  }

  ghost predicate Inside(files: Files, s: seq<nat>) {
    forall i :: 0 <= i < |s| ==> s[i] < |files|
  }

  /** The files of one kind, in order. */
  function OfKind(files: Files, pairs: Partners, s: seq<nat>, kind: nat): (r: seq<nat>)
    requires Inside(files, s)
    ensures forall i :: 0 <= i < |r| ==> r[i] < |files| && Kind(files, pairs, r[i]) == kind
  {
    if s == [] then []
    else (if Kind(files, pairs, s[0]) == kind then [s[0]] else []) + OfKind(files, pairs, s[1..], kind)
  }

  /** Stands for the library's stable sort, whose result the comparison determines. */
  function SortByKind(files: Files, pairs: Partners, s: seq<nat>): (r: seq<nat>)
    requires Inside(files, s)
  {
    OfKind(files, pairs, s, 0) + OfKind(files, pairs, s, 1) + OfKind(files, pairs, s, 2)
  }

  lemma CountCons(s: seq<nat>, head: nat, rest: seq<nat>, x: nat)
    requires s == [head] + rest
    ensures multiset(s)[x] == multiset(rest)[x] + if x == head then 1 else 0
  {
  }

  lemma {:induction false} KindCounts(files: Files, pairs: Partners, s: seq<nat>, kind: nat, x: nat)
    requires Inside(files, s)
    ensures multiset(OfKind(files, pairs, s, kind))[x] ==
      if x < |files| && Kind(files, pairs, x) == kind then multiset(s)[x] else 0
  {
    if s != [] {
      KindCounts(files, pairs, s[1..], kind, x);
      CountCons(s, s[0], s[1..], x);
      if Kind(files, pairs, s[0]) == kind {
        CountCons(OfKind(files, pairs, s, kind), s[0], OfKind(files, pairs, s[1..], kind), x);
      }
    }
  }

  /** The sort permutes, and puts no file after a greater one. */
  lemma SortPermutes(files: Files, pairs: Partners, s: seq<nat>)
    requires Inside(files, s)
    ensures multiset(SortByKind(files, pairs, s)) == multiset(s)
  {
    forall x: nat ensures multiset(SortByKind(files, pairs, s))[x] == multiset(s)[x] {
      KindCounts(files, pairs, s, 0, x);
      KindCounts(files, pairs, s, 1, x);
      KindCounts(files, pairs, s, 2, x);
      if x >= |files| {
        assert x !in s;
      }
    }
  }

  /** Two files of one kind appear among those of their kind, the earlier one first. */
  lemma {:induction false} KindInOrder(files: Files, pairs: Partners, s: seq<nat>, kind: nat, a: nat, b: nat)
    returns (i: nat, j: nat)
    requires Inside(files, s) && a < b < |s| && Kind(files, pairs, s[a]) == kind == Kind(files, pairs, s[b])
    ensures var r := OfKind(files, pairs, s, kind); i < j < |r| && r[i] == s[a] && r[j] == s[b]
  {
    var head := if Kind(files, pairs, s[0]) == kind then [s[0]] else [];
    var rest := s[1..];
    var later := OfKind(files, pairs, rest, kind);
    assert OfKind(files, pairs, s, kind) == head + later;
    if a == 0 {
      var l := KindAppears(files, pairs, rest, kind, b - 1);
      assert later[l] == rest[b - 1] == s[b];
      i, j := 0, l + 1;
    } else {
      var k, l := KindInOrder(files, pairs, rest, kind, a - 1, b - 1);
      assert later[k] == rest[a - 1] == s[a] && later[l] == rest[b - 1] == s[b];
      i, j := k + |head|, l + |head|;
    }
  }

  lemma {:induction false} KindAppears(files: Files, pairs: Partners, s: seq<nat>, kind: nat, b: nat)
    returns (j: nat)
    requires Inside(files, s) && b < |s| && Kind(files, pairs, s[b]) == kind
    ensures var r := OfKind(files, pairs, s, kind); j < |r| && r[j] == s[b]
  {
    var head := if Kind(files, pairs, s[0]) == kind then [s[0]] else [];
    assert OfKind(files, pairs, s, kind) == head + OfKind(files, pairs, s[1..], kind);
    if b == 0 {
      j := 0;
    } else {
      j := KindAppears(files, pairs, s[1..], kind, b - 1);
      j := j + |head|;
    }
  }

  /** The sort is stable: two files that are both merged, both native or both EC stay in order. */
  lemma SortStable(files: Files, pairs: Partners, s: seq<nat>, a: nat, b: nat) returns (i: nat, j: nat)
    requires Inside(files, s) && a < b < |s| && (s[a] in pairs <==> s[b] in pairs)
    requires s[a] !in pairs ==> files[s[a]].ec == files[s[b]].ec
    ensures var r := SortByKind(files, pairs, s); i < j < |r| && r[i] == s[a] && r[j] == s[b]
  {
    var kind := Kind(files, pairs, s[a]);
    i, j := KindInOrder(files, pairs, s, kind, a, b);
    i, j := InThree(OfKind(files, pairs, s, 0), OfKind(files, pairs, s, 1), OfKind(files, pairs, s, 2), kind, i, j);
  }

  lemma InThree(x: seq<nat>, y: seq<nat>, z: seq<nat>, kind: nat, i: nat, j: nat) returns (k: nat, l: nat)
    requires kind <= 2 && i < j < if kind == 0 then |x| else if kind == 1 then |y| else |z|
    ensures var part := if kind == 0 then x else if kind == 1 then y else z;
      k < l < |x + y + z| && (x + y + z)[k] == part[i] && (x + y + z)[l] == part[j]
  {
    var before := if kind == 0 then 0 else if kind == 1 then |x| else |x| + |y|;
    k, l := before + i, before + j;
  }

  lemma SortSorts(files: Files, pairs: Partners, s: seq<nat>)
    requires Inside(files, s) && forall i :: 0 <= i < |s| && s[i] in pairs ==> files[s[i]].ec
    ensures var r := SortByKind(files, pairs, s);
      Inside(files, r) && forall i, j :: 0 <= i < j < |r| ==> !Less(files, pairs, r[j], r[i])
  {
  }

  /** Only what the map says about the files in the list matters. */
  lemma {:induction false} SortSame(files: Files, pairs: Partners, other: Partners, s: seq<nat>, kind: nat)
    requires Inside(files, s) && forall i :: 0 <= i < |s| ==> (s[i] in pairs <==> s[i] in other)
    ensures OfKind(files, pairs, s, kind) == OfKind(files, other, s, kind)
  {
    if s != [] {
      SortSame(files, pairs, other, s[1..], kind);
    }
  }
}
