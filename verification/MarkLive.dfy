/** Garbage collection of sections: a worklist that marks exactly what is reachable. */
module MarkLive {
  import opened Collections
  import opened Options

  /** What a symbol resolves to: a section, an imported datum, an import thunk, or nothing that matters. */
  datatype Symbol = Regular(chunk: nat) | ImportData(file: nat) | ImportThunk(target: nat, thunk: nat) | Other

  /** Symbols in the relocation table (some may be missing), associated sections, EC entry thunk. */
  datatype Section = Section(symbols: seq<Option<nat>>, children: seq<nat>, entryThunk: Option<nat>, dwarf: bool)

  /** `exits` holds the exit thunk symbol of every import file that has one; `chunks` lists sections;
      `live` holds the sections that are live from the start. */
  datatype Program = Program(syms: seq<Symbol>, secs: seq<Section>, exits: seq<Option<nat>>, thunks: nat,
                             chunks: seq<nat>, live: seq<bool>, roots: seq<nat>)

  datatype Node = Sec(sec: nat) | File(file: nat) | Thunk(thunk: nat)

  predicate SymOk(p: Program, s: nat) {
    s < |p.syms| && match p.syms[s]
      case Regular(c) => c < |p.secs|
      case ImportData(f) => f < |p.exits|
      case ImportThunk(f, t) => f < |p.exits| && t < p.thunks
      case Other => true
  }

  predicate SecOk(p: Program, x: Section) {
    (forall i :: 0 <= i < |x.symbols| && x.symbols[i].Some? ==> SymOk(p, x.symbols[i].value)) &&
    (forall i :: 0 <= i < |x.children| ==> x.children[i] < |p.secs|) &&
    (x.entryThunk.Some? ==> SymOk(p, x.entryThunk.value))
  }

  /** References stay inside the program, and no section is listed twice. */
  ghost predicate Valid(p: Program) {
    |p.live| == |p.secs| && (forall x :: 0 <= x < |p.secs| ==> SecOk(p, p.secs[x])) &&
    (forall f :: 0 <= f < |p.exits| && p.exits[f].Some? ==> SymOk(p, p.exits[f].value)) &&
    (forall i :: 0 <= i < |p.roots| ==> SymOk(p, p.roots[i])) &&
    (forall i :: 0 <= i < |p.chunks| ==> p.chunks[i] < |p.secs|) &&
    forall i, j :: 0 <= i < j < |p.chunks| ==> p.chunks[i] != p.chunks[j]
  }

  function FileOf(s: Symbol): Option<nat> {
    match s
    case ImportData(f) => Some(f)
    case ImportThunk(f, _) => Some(f)
    case _ => None
  }

  /** The symbol that marking `s` goes on to: the exit thunk of its import file. */
  function Exit(p: Program, s: nat): Option<nat>
    requires SymOk(p, s)
  {
    var f := FileOf(p.syms[s]);
    if f.None? then None else p.exits[f.value]
  }

  /** Exit thunks form no cycle: `rank` falls along them. */
  ghost predicate Acyclic(p: Program, rank: seq<nat>)
    requires Valid(p)
  {
    |rank| == |p.syms| &&
    forall s: nat :: SymOk(p, s) && Exit(p, s).Some? ==> Exit(p, s).value < |rank| && rank[Exit(p, s).value] < rank[s]
  }

  // ------------------------------------------------------------------ reachability

  /** What a symbol refers to. */
  ghost function Direct(p: Program, s: nat): set<Node>
    requires SymOk(p, s)
  {
    match p.syms[s]
    case Regular(c) => {Sec(c)}
    case ImportData(f) => {File(f)}
    case ImportThunk(f, t) => {File(f), Thunk(t)}
    case Other => {}
  }

  /** Sections that are traversed without being referred to: live from the start, listed, not DWARF. */
  ghost predicate Starts(p: Program, x: nat)
    requires Valid(p)
  {
    x in p.chunks && x < |p.secs| && p.live[x] && !p.secs[x].dwarf
  }

  /** Sections that are traversed when the nodes of `m` have been referred to. */
  ghost predicate Traversed(p: Program, m: set<Node>, x: nat)
    requires Valid(p)
  {
    x < |p.secs| && (Starts(p, x) || (Sec(x) in m && !p.live[x]))
  }

  /** All that section `x` refers to is in `m`. */
  ghost predicate RefersInto(p: Program, m: set<Node>, x: nat)
    requires Valid(p) && x < |p.secs|
  {
    assert SecOk(p, p.secs[x]);
    var sec := p.secs[x];
    (forall i :: 0 <= i < |sec.symbols| && sec.symbols[i].Some? ==> Direct(p, sec.symbols[i].value) <= m) &&
    (forall i :: 0 <= i < |sec.children| ==> Sec(sec.children[i]) in m) &&
    (sec.entryThunk.Some? ==> Direct(p, sec.entryThunk.value) <= m)
  }

  /** `m` holds what the roots refer to, what the traversed sections refer to, and what the exit
      thunks of its import files refer to. */
  ghost predicate Closed(p: Program, m: set<Node>)
    requires Valid(p)
  {
    (forall i :: 0 <= i < |p.roots| ==> Direct(p, p.roots[i]) <= m) && FilesClosed(p, m) &&
    forall x: nat :: Traversed(p, m, x) ==> RefersInto(p, m, x)
  }

  ghost predicate FilesClosed(p: Program, m: set<Node>)
    requires Valid(p)
  {
    forall f: nat :: File(f) in m && f < |p.exits| && p.exits[f].Some? ==> Direct(p, p.exits[f].value) <= m
  }

  /** `m` is in every closed set. */
  ghost predicate Necessary(p: Program, m: set<Node>)
    requires Valid(p)
  {
    forall c: set<Node> :: Closed(p, c) ==> m <= c
  }

  /** Everything that marking one symbol marks at once. */
  ghost function Marks(p: Program, rank: seq<nat>, s: nat): (m: set<Node>)
    requires Valid(p) && Acyclic(p, rank) && SymOk(p, s)
    decreases rank[s]
  {
    if Exit(p, s).None? then Direct(p, s)
    else
      assert SymOk(p, Exit(p, s).value);
      Direct(p, s) + Marks(p, rank, Exit(p, s).value)
  }

  /** It is no more than the exit thunks demand, and no less. */
  lemma {:induction false} MarksClosed(p: Program, rank: seq<nat>, s: nat)
    requires Valid(p) && Acyclic(p, rank) && SymOk(p, s)
    ensures FilesClosed(p, Marks(p, rank, s)) && Direct(p, s) <= Marks(p, rank, s)
    ensures forall c: set<Node> :: FilesClosed(p, c) && Direct(p, s) <= c ==> Marks(p, rank, s) <= c
    ensures forall x: nat :: Sec(x) in Marks(p, rank, s) ==> x < |p.secs|
    decreases rank[s]
  {
    var e := Exit(p, s);
    if e.Some? {
      assert SymOk(p, e.value);
      MarksClosed(p, rank, e.value);
      forall c: set<Node> | FilesClosed(p, c) && Direct(p, s) <= c ensures Marks(p, rank, s) <= c {
        assert File(FileOf(p.syms[s]).value) in c;
      }
    }
  }

  // ------------------------------------------------------------------ reachability along paths

  /** A symbol refers to a section, to the import file of a datum, or to a thunk and its file. */
  predicate SymGives(p: Program, s: nat, n: Node) {
    s < |p.syms| &&
    match p.syms[s]
    case Regular(c) => n == Sec(c)
    case ImportData(f) => n == File(f)
    case ImportThunk(f, t) => n == File(f) || n == Thunk(t)
    case Other => false
  }

  /** A section refers to what its relocations name, to its associated sections, and to its EC entry thunk. */
  ghost predicate SectionGives(p: Program, x: nat, n: Node) {
    x < |p.secs| &&
    ((exists i :: 0 <= i < |p.secs[x].symbols| && p.secs[x].symbols[i].Some? &&
        SymGives(p, p.secs[x].symbols[i].value, n)) ||
     (exists i :: 0 <= i < |p.secs[x].children| && n == Sec(p.secs[x].children[i])) ||
     (p.secs[x].entryThunk.Some? && SymGives(p, p.secs[x].entryThunk.value, n)))
  }

  /** Named by a root, or referred to by a listed section that is live from the start and not DWARF. */
  ghost predicate First(p: Program, n: Node) {
    (exists i :: 0 <= i < |p.roots| && SymGives(p, p.roots[i], n)) ||
    exists x :: x in p.chunks && x < |p.secs| && x < |p.live| && p.live[x] && !p.secs[x].dwarf && SectionGives(p, x, n)
  }

  /** A section that was not live leads to what it refers to, an import file to its exit thunk. */
  ghost predicate LeadsTo(p: Program, n: Node, to: Node) {
    match n
    case Sec(x) => x < |p.live| && !p.live[x] && SectionGives(p, x, to)
    case File(f) => f < |p.exits| && p.exits[f].Some? && SymGives(p, p.exits[f].value, to)
    case Thunk(_) => false
  }

  ghost predicate IsPath(p: Program, path: seq<Node>) {
    path != [] && First(p, path[0]) &&
    forall i, next :: 0 <= i && next == i + 1 < |path| ==> LeadsTo(p, path[i], path[next])
  }

  ghost predicate Reachable(p: Program, n: Node) {
    exists path :: IsPath(p, path) && path[|path| - 1] == n
  }

  lemma DirectGives(p: Program, s: nat, n: Node)
    requires SymOk(p, s)
    ensures n in Direct(p, s) <==> SymGives(p, s, n)
  {
  }

  lemma RefersGives(p: Program, m: set<Node>, x: nat)
    requires Valid(p) && x < |p.secs|
    ensures RefersInto(p, m, x) <==> forall n :: SectionGives(p, x, n) ==> n in m
  {
    assert SecOk(p, p.secs[x]);
    var sec := p.secs[x];
    if RefersInto(p, m, x) {
      forall n | SectionGives(p, x, n) ensures n in m {
      }
    }
    if forall n :: SectionGives(p, x, n) ==> n in m {
      forall i, n | 0 <= i < |sec.symbols| && sec.symbols[i].Some? && n in Direct(p, sec.symbols[i].value)
        ensures n in m {
        assert SectionGives(p, x, n);
      }
      forall i | 0 <= i < |sec.children| ensures Sec(sec.children[i]) in m {
        assert SectionGives(p, x, Sec(sec.children[i]));
      }
      if sec.entryThunk.Some? {
        forall n | n in Direct(p, sec.entryThunk.value) ensures n in m {
          assert SectionGives(p, x, n);
        }
      }
    }
  }

  /** A closed set holds everything that is reachable. */
  lemma {:induction false} PathInside(p: Program, m: set<Node>, path: seq<Node>)
    requires Valid(p) && Closed(p, m) && IsPath(p, path)
    ensures path[|path| - 1] in m
    decreases |path|
  {
    var n := path[|path| - 1];
    if |path| == 1 {
      FirstInside(p, m, n);
    } else {
      var front := path[..|path| - 1];
      assert IsPath(p, front);
      PathInside(p, m, front);
      var from, i, next := front[|front| - 1], |path| - 2, |path| - 1;
      assert LeadsTo(p, path[i], path[next]);
      LeadsInside(p, m, from, n);
    }
  }

  lemma FirstInside(p: Program, m: set<Node>, n: Node)
    requires Valid(p) && Closed(p, m) && First(p, n)
    ensures n in m
  {
    if i :| 0 <= i < |p.roots| && SymGives(p, p.roots[i], n) {
      assert Direct(p, p.roots[i]) <= m;
    } else {
      var x :| x in p.chunks && x < |p.secs| && x < |p.live| && p.live[x] && !p.secs[x].dwarf && SectionGives(p, x, n);
      assert Traversed(p, m, x);
      RefersGives(p, m, x);
    }
  }

  lemma LeadsInside(p: Program, m: set<Node>, from: Node, n: Node)
    requires Valid(p) && Closed(p, m) && from in m && LeadsTo(p, from, n)
    ensures n in m
  {
    match from
    case Sec(x) =>
      assert Traversed(p, m, x);
      RefersGives(p, m, x);
    case File(f) =>
      DirectGives(p, p.exits[f].value, n);
  }

  /** One step more along a path. */
  lemma PathGoesOn(p: Program, from: Node, n: Node)
    requires Reachable(p, from) && LeadsTo(p, from, n)
    ensures Reachable(p, n)
  {
    var path :| IsPath(p, path) && path[|path| - 1] == from;
    var more := path + [n];
    forall i, next | 0 <= i && next == i + 1 < |more| ensures LeadsTo(p, more[i], more[next]) {
      if next < |path| {
        assert LeadsTo(p, path[i], path[next]);
      }
    }
    assert IsPath(p, more) && more[|more| - 1] == n;
  }

  lemma FirstReachable(p: Program, n: Node)
    requires First(p, n)
    ensures Reachable(p, n)
  {
    assert IsPath(p, [n]) && [n][|[n]| - 1] == n;
  }

  /** The reachable part of a closed set is closed. */
  lemma ReachableClosed(p: Program, m: set<Node>, r: set<Node>)
    requires Valid(p) && Closed(p, m) && forall n :: n in r <==> n in m && Reachable(p, n)
    ensures Closed(p, r)
  {
    forall i, n | 0 <= i < |p.roots| && n in Direct(p, p.roots[i]) ensures n in r {
      FirstReachable(p, n);
    }
    forall f: nat, n | File(f) in r && f < |p.exits| && p.exits[f].Some? && n in Direct(p, p.exits[f].value)
      ensures n in r
    {
      PathGoesOn(p, File(f), n);
    }
    forall x: nat | Traversed(p, r, x) ensures RefersInto(p, r, x) {
      TraversedReachable(p, m, r, x);
    }
  }

  lemma TraversedReachable(p: Program, m: set<Node>, r: set<Node>, x: nat)
    requires Valid(p) && Closed(p, m) && (forall n :: n in r <==> n in m && Reachable(p, n)) && Traversed(p, r, x)
    ensures RefersInto(p, r, x)
  {
    assert Traversed(p, m, x);
    RefersGives(p, m, x);
    RefersGives(p, r, x);
    forall n | SectionGives(p, x, n) ensures n in r {
      if Starts(p, x) {
        FirstReachable(p, n);
      } else {
        PathGoesOn(p, Sec(x), n);
      }
    }
  }

  /** The least closed set is what paths lead to. */
  lemma LeastIsReachable(p: Program, m: set<Node>)
    requires Valid(p) && Closed(p, m) && Necessary(p, m)
    ensures forall n :: n in m <==> Reachable(p, n)
  {
    var r := set n | n in m && Reachable(p, n);
    ReachableClosed(p, m, r);
    forall n ensures n in m <==> Reachable(p, n) {
      if Reachable(p, n) {
        var path :| IsPath(p, path) && path[|path| - 1] == n;
        PathInside(p, m, path);
      }
    }
  }

  // ------------------------------------------------------------------ what marking needs

  /** A closed set holds what a section that it makes traversed refers to. */
  lemma SectionNeeds(p: Program, m: set<Node>, x: nat)
    requires Valid(p) && Traversed(p, m, x) && Necessary(p, m)
    ensures SecOk(p, p.secs[x])
    ensures forall c: set<Node> :: Closed(p, c) ==> RefersInto(p, c, x)
  {
    forall c: set<Node> | Closed(p, c) ensures RefersInto(p, c, x) {
      assert Traversed(p, c, x);
    }
  }

  /** Marking a symbol that every closed set asks for adds nothing unnecessary. */
  lemma AddMarks(p: Program, rank: seq<nat>, m: set<Node>, s: nat)
    requires Valid(p) && Acyclic(p, rank) && SymOk(p, s) && Necessary(p, m) && FilesClosed(p, m)
    requires forall c: set<Node> :: Closed(p, c) ==> Direct(p, s) <= c
    ensures Necessary(p, m + Marks(p, rank, s)) && FilesClosed(p, m + Marks(p, rank, s))
    ensures Direct(p, s) <= m + Marks(p, rank, s)
  {
    MarksClosed(p, rank, s);
  }

  lemma DoneBounded(s: set<nat>, n: nat)
    requires forall x :: x in s ==> x < n
    ensures |s| <= n
  {
    SubsetCard(s, Below(n));
  }

  // ------------------------------------------------------------------ marking

  class Marker {
    const p: Program
    var liveSec: seq<bool>
    var liveFile: seq<bool>
    var liveThunk: seq<bool>
    var worklist: seq<nat>
    ghost var touched: set<Node>
    ghost var entered: set<nat>

    constructor (program: Program, files: seq<bool>, thunks: seq<bool>)
      ensures p == program && liveSec == program.live && liveFile == files && liveThunk == thunks
      ensures worklist == [] && touched == {} && entered == {}
    {
      p, liveSec, liveFile, liveThunk := program, program.live, files, thunks;
      worklist, touched, entered := [], {}, {};
    }

    /** The live bits are those set from the start and those of the nodes touched so far; sections
        enter the worklist once, and what is in it or has been in it is to be traversed. */
    ghost predicate Inv(files: seq<bool>, thunks: seq<bool>)
      reads this
    {
      Valid(p) && |liveSec| == |p.secs| && |liveFile| == |files| == |p.exits| && |liveThunk| == |thunks| == p.thunks &&
      (forall x :: 0 <= x < |liveSec| ==> liveSec[x] == (p.live[x] || Sec(x) in touched)) &&
      (forall f :: 0 <= f < |liveFile| ==> liveFile[f] == (files[f] || File(f) in touched)) &&
      (forall t :: 0 <= t < |liveThunk| ==> liveThunk[t] == (thunks[t] || Thunk(t) in touched)) &&
      (forall x: nat :: Sec(x) in touched ==> x < |p.secs|) &&
      (forall x: nat :: x in entered <==> Traversed(p, touched, x)) &&
      (forall i :: 0 <= i < |worklist| ==> worklist[i] in entered) &&
      forall i, j :: 0 <= i < j < |worklist| ==> worklist[i] != worklist[j]
    }

    /** Sections that have been traversed. */
    ghost function Done(): set<nat>
      reads this
    {
      set x | x in entered && x !in worklist
    }

    method Enqueue(c: nat, ghost files: seq<bool>, ghost thunks: seq<bool>)
      requires Inv(files, thunks) && c < |p.secs|
      modifies this`liveSec, this`worklist, this`touched, this`entered
      ensures Inv(files, thunks) && touched == old(touched) + {Sec(c)} && Done() == old(Done())
    {
      ghost var done := Done();
      touched := touched + {Sec(c)};
      if !liveSec[c] {
        assert !Starts(p, c) && c !in entered;
        liveSec := liveSec[c := true];
        worklist := worklist + [c];
        entered := entered + {c};
      }
      assert Done() == done;
    }

    /** Marks an import file and goes on to its exit thunk. */
    method AddImportFile(f: nat, ghost s: nat, ghost rank: seq<nat>, ghost files: seq<bool>, ghost thunks: seq<bool>)
      requires Inv(files, thunks) && Acyclic(p, rank) && SymOk(p, s) && FileOf(p.syms[s]) == Some(f)
      modifies this`liveSec, this`liveFile, this`liveThunk, this`worklist, this`touched, this`entered
      ensures Inv(files, thunks) && Done() == old(Done())
      ensures touched == old(touched) + {File(f)} + if Exit(p, s).None? then {} else Marks(p, rank, Exit(p, s).value)
      decreases rank[s], 0
    {
      ghost var done := Done();
      touched := touched + {File(f)};
      liveFile := liveFile[f := true];
      assert Inv(files, thunks) && Done() == done;
      if p.exits[f].Some? {
        assert SymOk(p, p.exits[f].value);
        AddSym(p.exits[f].value, rank, files, thunks);
      }
    }

    /** Marks what a symbol refers to. */
    method AddSym(s: nat, ghost rank: seq<nat>, ghost files: seq<bool>, ghost thunks: seq<bool>)
      requires Inv(files, thunks) && Acyclic(p, rank) && SymOk(p, s)
      modifies this`liveSec, this`liveFile, this`liveThunk, this`worklist, this`touched, this`entered
      ensures Inv(files, thunks) && Done() == old(Done()) && touched == old(touched) + Marks(p, rank, s)
      decreases rank[s], 1
    {
      match p.syms[s]
      case Regular(c) =>
        Enqueue(c, files, thunks);
      case ImportData(f) =>
        AddImportFile(f, s, rank, files, thunks);
      case ImportThunk(f, t) =>
        AddImportFile(f, s, rank, files, thunks);
        ghost var done := Done();
        touched := touched + {Thunk(t)};
        liveThunk := liveThunk[t := true];
        assert Done() == done;
      case Other =>
    }

    /** What the loop has achieved: nothing that is not necessary, and all that the roots and the
        traversed sections ask for. */
    ghost predicate Progress()
      reads this
      requires Valid(p)
    {
      Necessary(p, touched) && FilesClosed(p, touched) &&
      forall x :: x in Done() && x < |p.secs| ==> RefersInto(p, touched, x)
    }

    /** Marks everything that section `x` refers to. */
    method Traverse(x: nat, ghost rank: seq<nat>, ghost files: seq<bool>, ghost thunks: seq<bool>)
      requires Inv(files, thunks) && Acyclic(p, rank) && Traversed(p, touched, x)
      requires Necessary(p, touched) && FilesClosed(p, touched)
      modifies this`liveSec, this`liveFile, this`liveThunk, this`worklist, this`touched, this`entered
      ensures Inv(files, thunks) && Done() == old(Done()) && old(touched) <= touched
      ensures Necessary(p, touched) && FilesClosed(p, touched) && RefersInto(p, touched, x)
    {
      assert SecOk(p, p.secs[x]);
      ghost var m, done := touched, Done();
      var sec := p.secs[x];
      var i := 0;
      while i < |sec.symbols|
        invariant i <= |sec.symbols| && Inv(files, thunks) && Done() == done && m <= touched
        invariant Necessary(p, touched) && FilesClosed(p, touched)
        invariant forall j :: 0 <= j < i && sec.symbols[j].Some? ==> Direct(p, sec.symbols[j].value) <= touched
      {
        if sec.symbols[i].Some? {
          var s := sec.symbols[i].value;
          SectionNeeds(p, m, x);
          AddMarks(p, rank, touched, s);
          AddSym(s, rank, files, thunks);
        }
        i := i + 1;
      }
      assert i == |sec.symbols|;
      i := 0;
      while i < |sec.children|
        invariant i <= |sec.children| && Inv(files, thunks) && Done() == done && m <= touched
        invariant Necessary(p, touched) && FilesClosed(p, touched)
        invariant forall j :: 0 <= j < |sec.symbols| && sec.symbols[j].Some? ==>
          Direct(p, sec.symbols[j].value) <= touched
        invariant forall j :: 0 <= j < i ==> Sec(sec.children[j]) in touched
      {
        SectionNeeds(p, m, x);
        Enqueue(sec.children[i], files, thunks);
        i := i + 1;
      }
      assert i == |sec.children|;
      if sec.entryThunk.Some? {
        SectionNeeds(p, m, x);
        AddMarks(p, rank, touched, sec.entryThunk.value);
        AddSym(sec.entryThunk.value, rank, files, thunks);
      }
    }

    /** The initial worklist. */
    method Start(ghost files: seq<bool>, ghost thunks: seq<bool>)
      requires Valid(p) && liveSec == p.live && liveFile == files && liveThunk == thunks
      requires |files| == |p.exits| && |thunks| == p.thunks && worklist == [] && touched == {} && entered == {}
      modifies this`worklist, this`entered
      ensures Inv(files, thunks) && Done() == {}
    {
      var i := 0;
      while i < |p.chunks|
        invariant i <= |p.chunks|
        invariant forall x: nat :: x in worklist <==>
          x in p.chunks[..i] && x < |p.secs| && p.live[x] && !p.secs[x].dwarf
        invariant forall x: nat :: x in entered <==> x in worklist
        invariant forall a, b :: 0 <= a < b < |worklist| ==> worklist[a] != worklist[b]
      {
        var x, next := p.chunks[i], i + 1;
        assert p.chunks[..next] == p.chunks[..i] + [x];
        if liveSec[x] && !p.secs[x].dwarf {
          assert x !in p.chunks[..i];
          worklist := worklist + [x];
          entered := entered + {x};
        }
        i := next;
      }
      assert i == |p.chunks|;
      assert p.chunks[..i] == p.chunks;
    }

    /** The roots of the collection. */
    method MarkRoots(ghost rank: seq<nat>, ghost files: seq<bool>, ghost thunks: seq<bool>)
      requires Inv(files, thunks) && Acyclic(p, rank) && Done() == {} && touched == {}
      modifies this`liveSec, this`liveFile, this`liveThunk, this`worklist, this`touched, this`entered
      ensures Inv(files, thunks) && Done() == {} && Necessary(p, touched) && FilesClosed(p, touched)
      ensures forall j :: 0 <= j < |p.roots| ==> Direct(p, p.roots[j]) <= touched
    {
      var i := 0;
      while i < |p.roots|
        invariant i <= |p.roots| && Inv(files, thunks) && Done() == {} && Necessary(p, touched) &&
          FilesClosed(p, touched)
        invariant forall j :: 0 <= j < i ==> Direct(p, p.roots[j]) <= touched
      {
        AddMarks(p, rank, touched, p.roots[i]);
        AddSym(p.roots[i], rank, files, thunks);
        i := i + 1;
      }
      assert i == |p.roots|;
    }

    /** Takes the last section off the worklist. */
    method Take(ghost files: seq<bool>, ghost thunks: seq<bool>) returns (x: nat)
      requires Inv(files, thunks) && worklist != []
      modifies this`worklist
      ensures Inv(files, thunks) && Done() == old(Done()) + {x} && x !in old(Done()) && Traversed(p, touched, x)
    {
      ghost var done := Done();
      var n := |worklist| - 1;
      x := worklist[n];
      assert worklist == worklist[..n] + [x];
      worklist := worklist[..n];
      assert Done() == done + {x};
    }

    /** Takes one section off the worklist and marks what it refers to. */
    method Pop(ghost rank: seq<nat>, ghost files: seq<bool>, ghost thunks: seq<bool>) returns (x: nat)
      requires Inv(files, thunks) && Acyclic(p, rank) && Progress() && worklist != []
      modifies this`liveSec, this`liveFile, this`liveThunk, this`worklist, this`touched, this`entered
      ensures Inv(files, thunks) && Progress() && old(touched) <= touched
      ensures Done() == old(Done()) + {x} && x !in old(Done()) && |old(Done())| < |Done()| <= |p.secs|
    {
      x := Take(files, thunks);
      Traverse(x, rank, files, thunks);
      DoneBounded(Done(), |p.secs|);
    }

    /** Marks the sections, import files and thunks that are needed. `popped` lists everything that
        has been in the worklist, which is what is to be traversed, each section once. */
    method Mark(ghost rank: seq<nat>, ghost files: seq<bool>, ghost thunks: seq<bool>) returns (ghost popped: seq<nat>)
      requires Valid(p) && Acyclic(p, rank) && liveSec == p.live && liveFile == files && liveThunk == thunks
      requires |files| == |p.exits| && |thunks| == p.thunks && worklist == [] && touched == {} && entered == {}
      modifies this
      ensures Closed(p, touched) && Necessary(p, touched)
      ensures Distinct(popped) && forall x: nat :: x in popped <==> Traversed(p, touched, x)
      ensures |liveSec| == |p.secs| && |liveFile| == |p.exits| && |liveThunk| == p.thunks
      ensures forall x :: 0 <= x < |liveSec| ==> liveSec[x] == (p.live[x] || Sec(x) in touched)
      ensures forall f :: 0 <= f < |liveFile| ==> liveFile[f] == (files[f] || File(f) in touched)
      ensures forall t :: 0 <= t < |liveThunk| ==> liveThunk[t] == (thunks[t] || Thunk(t) in touched)
      ensures forall n :: n in touched <==> Reachable(p, n)
    {
      Start(files, thunks);
      MarkRoots(rank, files, thunks);
      popped := [];
      ghost var m := touched;
      while worklist != []
        invariant Inv(files, thunks) && Progress() && m <= touched && |Done()| <= |p.secs|
        invariant Distinct(popped) && forall x: nat :: x in popped <==> x in Done()
        decreases |p.secs| - |Done()|
      {
        var x := Pop(rank, files, thunks);
        popped := popped + [x];
      }
      assert forall x: nat :: Traversed(p, touched, x) ==> x in Done();
      LeastIsReachable(p, touched);
    }
  }
}
