/** An extracted package directory, and the bounded walk that selects its native components. */
module PackageTree {
  import opened Bytes
  import opened Sequences
  import opened Wrappers
  import opened ElfDynamic

  /** The components of a name relative to the package root; `[]` is the root itself. */
  type Path = seq<string>

  /** Where the whole chain of links behind a symbolic link ends. */
  datatype Resolution = Inside(path: Path) | Outside

  datatype Node = File(content: seq<byte>) | Dir | Link(target: Resolution) | Special

  /** Every entry below the root. */
  type Tree = map<Path, Node>

  /** SHA-256, idealised: equal digests mean equal contents. */
  datatype Digest = Digest(content: seq<byte>)

  const MAX_ENTRIES := 50000
  const MAX_BYTES := 4 * 1024 * 1024 * 1024
  const MAX_COMPONENTS := 1024
  const HELPERS: set<Path> := {["usr", "bin", "xdg-mime"], ["usr", "bin", "xdg-open"]}

  function Parent(p: Path): Path
    requires p != []
  {
    p[..|p| - 1]
  }

  predicate IsDir(t: Tree, p: Path) {
    p == [] || (p in t && t[p].Dir?)
  }

  /** What every file system guarantees: an entry stands in a directory. */
  ghost predicate WellFormed(t: Tree) {
    forall p <- t :: p != [] && IsDir(t, Parent(p))
  }

  function Children(t: Tree, d: Path): set<Path> {
    set p <- t | p != [] && Parent(p) == d
  }

  function Size(n: Node): nat {
    if n.File? then |n.content| else 0
  }

  ghost function TotalSize(t: Tree, paths: set<Path>): nat
    requires paths <= t.Keys
  {
    if paths == {} then 0 else var p :| p in paths; Size(t[p]) + TotalSize(t, paths - {p})
  }

  /** The regular files that the inventory is about. */
  predicate IsComponent(p: Path, n: Node) {
    n.File? && (IsElf(n.content) || p in HELPERS)
  }

  /** Recursive enumeration without links: every component with its digest. */
  function Selected(t: Tree): map<Path, Digest> {
    map p <- t | IsComponent(p, t[p]) :: Digest(t[p].content)
  }

  /** A symbolic link is followed to an existing place inside the package; nothing is a special file. */
  predicate Allowed(t: Tree, n: Node) {
    match n
    case Link(Inside(target)) => target == [] || target in t
    case Link(Outside) => false
    case Special => false
    case _ => true
  }

  ghost predicate Admissible(t: Tree) {
    && |t| <= MAX_ENTRIES
    && TotalSize(t, t.Keys) <= MAX_BYTES
    && (forall p <- t :: Allowed(t, t[p]))
    && |Selected(t)| <= MAX_COMPONENTS
  }

  lemma {:induction false} TotalSizeOfOneMore(t: Tree, paths: set<Path>, p: Path)
    requires paths <= t.Keys && p in t && p !in paths
    ensures TotalSize(t, paths + {p}) == Size(t[p]) + TotalSize(t, paths)
    decreases |paths|
  {
    var all := paths + {p};
    var q :| q in all && TotalSize(t, all) == Size(t[q]) + TotalSize(t, all - {q});
    if q == p {
      assert all - {q} == paths;
    } else {
      assert all - {q} == (paths - {q}) + {p};
      TotalSizeOfOneMore(t, paths - {q}, p);
      assert paths == (paths - {q}) + {q};
      TotalSizeOfOneMore(t, paths - {q}, q);
    }
  }

  lemma {:induction false} TotalSizeMonotone(t: Tree, some: set<Path>, all: set<Path>)
    requires some <= all <= t.Keys
    ensures TotalSize(t, some) <= TotalSize(t, all)
    decreases |all - some|
  {
    if p :| p in all && p !in some {
      TotalSizeOfOneMore(t, some, p);
      TotalSizeMonotone(t, some + {p}, all);
    } else {
      assert some == all;
    }
  }

  /** Selected are exactly the regular files that start with the ELF magic, whatever their names, and the two helpers.
      */
  lemma SelectedExactly(t: Tree, p: Path)
    ensures p in Selected(t) <==>
            && p in t && t[p].File?
            && ((|t[p].content| >= 4 && t[p].content[..4] == [0x7f, 'E' as int, 'L' as int, 'F' as int])
                || p == ["usr", "bin", "xdg-mime"] || p == ["usr", "bin", "xdg-open"])
    ensures p in Selected(t) ==> Selected(t)[p] == Digest(t[p].content)
  {
    if p in t && t[p].File? && |t[p].content| >= 4 {
      assert MAGIC <= t[p].content <==> t[p].content[..4] == MAGIC;
    }
  }

  /** A single entry is enough to make a package inadmissible: a special file, a link that dangles or leads out, or a
      file above 4 GiB. */
  lemma RefusedEntry(t: Tree, p: Path)
    requires p in t
    requires match t[p]
             case Special => true
             case Link(Outside) => true
             case Link(Inside(target)) => target != [] && target !in t
             case File(content) => |content| > 4 * 1024 * 1024 * 1024
             case Dir => false
    ensures !Admissible(t)
  {
    TotalSizeOfOneMore(t, {}, p);
    assert {} + {p} == {p};
    TotalSizeMonotone(t, {p}, t.Keys);
  }

  /** Too many entries or components do so together, and files within the bounds alone do not. */
  lemma CountsDecide(t: Tree)
    requires forall p <- t :: t[p].Dir? || t[p].File?
    requires TotalSize(t, t.Keys) <= 4 * 1024 * 1024 * 1024
    ensures Admissible(t) <==> |t| <= 50000 && |Selected(t)| <= 1024
  {}

  lemma SizeOfSubset<T>(some: set<T>, all: set<T>)
    requires some <= all
    ensures |some| <= |all|
  {
    assert all == some + (all - some);
  }

  ghost function ToSet(visits: seq<Path>): set<Path> {
    set p <- visits
  }

  lemma VisitOneMore(visits: seq<Path>, p: Path)
    requires Distinct(visits) && p !in visits
    ensures Distinct(visits + [p]) && ToSet(visits + [p]) == ToSet(visits) + {p}
  {}

  lemma DistinctPrefix(visits: seq<Path>, p: Path)
    requires Distinct(visits + [p])
    ensures Distinct(visits) && p !in visits
  {
    var all := visits + [p];
    assert forall i :: 0 <= i < |visits| ==> all[i] == visits[i] && all[i] != all[|visits|];
  }

  lemma {:induction false} DistinctCount(visits: seq<Path>)
    requires Distinct(visits)
    ensures |ToSet(visits)| == |visits|
  {
    if visits != [] {
      var rest, last := visits[..|visits| - 1], visits[|visits| - 1];
      assert visits == rest + [last];
      DistinctPrefix(rest, last);
      DistinctCount(rest);
      VisitOneMore(rest, last);
    }
  }

  /** An entry has been seen when its directory has been scanned, except for those still `todo`. */
  ghost predicate Seen(t: Tree, visits: seq<Path>, scanned: set<Path>, todo: set<Path>) {
    && Distinct(visits)
    && (forall p <- visits :: p in t && Allowed(t, t[p]) && p !in todo)
    && (forall p <- todo :: p in t && p != [] && Parent(p) in scanned)
    && (forall p <- t :: p != [] && Parent(p) in scanned ==> p in visits || p in todo)
  }

  /** Every directory seen, and the root, is either scanned or waiting on the stack, once. */
  ghost predicate Stacked(t: Tree, visits: seq<Path>, scanned: set<Path>, pending: seq<Path>) {
    && Distinct(pending)
    && (forall d <- pending :: d !in scanned && (d == [] || d in visits))
    && (forall d <- scanned :: d == [] || d in visits)
    && ([] in scanned || [] in pending)
    && (forall d <- visits :: d in t && t[d].Dir? ==> d in scanned || d in pending)
    && (forall p <- visits :: p != [] && Parent(p) in scanned)
  }

  /** The components found so far are the components among the entries seen. */
  ghost predicate Found(t: Tree, visits: seq<Path>, result: map<Path, Digest>) {
    && (forall p :: p in result <==> p in visits && p in t && IsComponent(p, t[p]))
    && (forall p <- result :: p in t && t[p].File? && result[p] == Digest(t[p].content))
  }

  /** The counters of the walk are within bounds. */
  ghost predicate Counted(t: Tree, visits: seq<Path>, count: nat, total: nat) {
    && ToSet(visits) <= t.Keys
    && count == |visits| <= MAX_ENTRIES
    && total == TotalSize(t, ToSet(visits)) <= MAX_BYTES
  }

  /** With an empty stack everything has been seen. */
  lemma {:induction false} WalkedEverywhere(t: Tree, visits: seq<Path>, scanned: set<Path>, p: Path)
    requires WellFormed(t) && Seen(t, visits, scanned, {}) && Stacked(t, visits, scanned, [])
    requires p in t
    ensures p in visits
    decreases |p|
  {
    if Parent(p) != [] {
      WalkedEverywhere(t, visits, scanned, Parent(p));
    }
    assert Parent(p) in scanned;
  }

  /** Walk the tree with an explicit stack, in whatever order the directories list their entries. `None` is a
      raised error. `visits` are the entries in the order in which the walk meets them. */
  method SelectedFiles(t: Tree) returns (r: Option<map<Path, Digest>>, ghost visits: seq<Path>)
    requires WellFormed(t)
    ensures r.Some? <==> Admissible(t)
    ensures r.Some? ==> r.value == Selected(t)
    ensures Distinct(visits) && ToSet(visits) <= t.Keys
    ensures r.Some? ==> ToSet(visits) == t.Keys
  {
    var result: map<Path, Digest>, count: nat, total: nat := map[], 0, 0;
    var pending: seq<Path> := [[]];
    ghost var scanned: set<Path> := {};
    visits := [];
    Begin(t);
    while pending != []
      invariant Walk(t, visits, scanned, pending, {}, result, count, total)
      decreases t.Keys + {[]} - scanned
    {
      var d := pending[|pending| - 1];
      var entries := Children(t, d);
      OpenDirectory(t, visits, scanned, pending, entries, result, count, total);
      pending := pending[..|pending| - 1];
      scanned := scanned + {d};
      var within;
      within, pending, result, count, total, visits :=
        ScanDirectory(t, entries, pending, result, count, total, visits, scanned);
      if !within {
        r := None;
        return;
      }
    }
    Finish(t, visits, scanned, result, count, total);
    r := if |result| > MAX_COMPONENTS then None else Some(result);
  }

  /** The inner loop of the walk: the entries of one directory, in any order. */
  method ScanDirectory(t: Tree, listing: set<Path>, stack: seq<Path>, found: map<Path, Digest>, entryCount: nat,
                       byteCount: nat, ghost earlier: seq<Path>, ghost scanned: set<Path>)
    returns (within: bool, pending: seq<Path>, result: map<Path, Digest>, count: nat, total: nat,
             ghost visits: seq<Path>)
    requires Walk(t, earlier, scanned, stack, listing, found, entryCount, byteCount)
    ensures within ==> Walk(t, visits, scanned, pending, {}, result, count, total)
    ensures !within ==> !Admissible(t)
    ensures Distinct(visits) && ToSet(visits) <= t.Keys
  {
    within := true;
    var entries := listing;
    pending, result, count, total, visits := stack, found, entryCount, byteCount, earlier;
    while entries != {}
      invariant Walk(t, visits, scanned, pending, entries, result, count, total)
      decreases |entries|
    {
      var path :| path in entries;
      var node := t[path];
      Advance(t, visits, scanned, pending, entries, result, count, total, path);
      count := count + 1;
      if node.File? {
        total := total + |node.content|;
      }
      if count > MAX_ENTRIES || !Allowed(t, node) || total > MAX_BYTES {
        within := false;
        return;
      }
      if node.Dir? {
        pending := pending + [path];
      }
      if IsComponent(path, node) {
        result := result[path := Digest(node.content)];
      }
      entries := entries - {path};
      visits := visits + [path];
    }
  }

  ghost predicate Walk(t: Tree, visits: seq<Path>, scanned: set<Path>, pending: seq<Path>, todo: set<Path>,
                       result: map<Path, Digest>, count: nat, total: nat) {
    && Seen(t, visits, scanned, todo)
    && Stacked(t, visits, scanned, pending)
    && Found(t, visits, result)
    && Counted(t, visits, count, total)
  }

  /** One more entry: either it shows that the tree is not admissible, or the walk goes on. */
  lemma Advance(t: Tree, visits: seq<Path>, scanned: set<Path>, pending: seq<Path>, todo: set<Path>,
                result: map<Path, Digest>, count: nat, total: nat, p: Path)
    requires Walk(t, visits, scanned, pending, todo, result, count, total) && p in todo
    ensures p in t
    ensures Distinct(visits) && ToSet(visits) <= t.Keys
    ensures var n := t[p];
            if count + 1 > MAX_ENTRIES || !Allowed(t, n) || total + Size(n) > MAX_BYTES then !Admissible(t)
            else Walk(t, visits + [p], scanned, if n.Dir? then pending + [p] else pending, todo - {p},
                      if IsComponent(p, n) then result[p := Digest(n.content)] else result,
                      count + 1, total + Size(n))
  {
    CountEntry(t, visits, p);
    if Allowed(t, t[p]) {
      VisitEntry(t, visits, scanned, pending, todo, p);
      FindEntry(t, visits, result, p);
    }
  }

  lemma Finish(t: Tree, visits: seq<Path>, scanned: set<Path>, result: map<Path, Digest>, count: nat, total: nat)
    requires WellFormed(t) && Walk(t, visits, scanned, [], {}, result, count, total)
    ensures Distinct(visits) && ToSet(visits) == t.Keys
    ensures result == Selected(t)
    ensures |result| <= MAX_COMPONENTS <==> Admissible(t)
  {
    forall p | p in t
      ensures p in visits
    {
      WalkedEverywhere(t, visits, scanned, p);
    }
    assert ToSet(visits) == t.Keys;
    DistinctCount(visits);
    FoundAll(t, visits, result);
  }

  lemma FoundAll(t: Tree, visits: seq<Path>, result: map<Path, Digest>)
    requires Found(t, visits, result) && forall p <- t :: p in visits
    ensures result == Selected(t)
  {}

  lemma Begin(t: Tree)
    ensures Walk(t, [], {}, [[]], {}, map[], 0, 0)
  {
    assert ToSet([]) == {};
  }

  /** Popping a directory off the stack puts its entries on the list to do. */
  lemma OpenDirectory(t: Tree, visits: seq<Path>, scanned: set<Path>, pending: seq<Path>, entries: set<Path>,
                      result: map<Path, Digest>, count: nat, total: nat)
    requires Walk(t, visits, scanned, pending, {}, result, count, total)
    requires pending != [] && entries == Children(t, pending[|pending| - 1])
    ensures var d := pending[|pending| - 1];
            && Walk(t, visits, scanned + {d}, pending[..|pending| - 1], entries, result, count, total)
            && d in t.Keys + {[]} && d !in scanned
  {
    StartDirectory(t, visits, scanned, pending, pending[|pending| - 1], entries);
  }

  lemma StartDirectory(t: Tree, visits: seq<Path>, scanned: set<Path>, pending: seq<Path>, d: Path, entries: set<Path>)
    requires Seen(t, visits, scanned, {}) && Stacked(t, visits, scanned, pending)
    requires pending != [] && d == pending[|pending| - 1] && entries == Children(t, d)
    ensures Seen(t, visits, scanned + {d}, entries)
    ensures Stacked(t, visits, scanned + {d}, pending[..|pending| - 1])
    ensures d in t.Keys + {[]} && d !in scanned
  {
    var rest := pending[..|pending| - 1];
    assert pending == rest + [d];
    assert forall x :: x in pending <==> x in rest || x == d;
  }

  lemma VisitEntry(t: Tree, visits: seq<Path>, scanned: set<Path>, pending: seq<Path>, todo: set<Path>, p: Path)
    requires Seen(t, visits, scanned, todo) && Stacked(t, visits, scanned, pending)
    requires p in todo && p in t && Allowed(t, t[p])
    ensures Seen(t, visits + [p], scanned, todo - {p})
    ensures Stacked(t, visits + [p], scanned, if t[p].Dir? then pending + [p] else pending)
  {
    VisitSeen(t, visits, scanned, todo, p);
    VisitStacked(t, visits, scanned, pending, p);
  }

  lemma VisitSeen(t: Tree, visits: seq<Path>, scanned: set<Path>, todo: set<Path>, p: Path)
    requires Seen(t, visits, scanned, todo)
    requires p in todo && p in t && Allowed(t, t[p])
    ensures Seen(t, visits + [p], scanned, todo - {p})
  {
    VisitOneMore(visits, p);
    assert forall x :: x in visits + [p] <==> x in visits || x == p;
  }

  lemma VisitStacked(t: Tree, visits: seq<Path>, scanned: set<Path>, pending: seq<Path>, p: Path)
    requires Stacked(t, visits, scanned, pending)
    requires p in t && p != [] && Parent(p) in scanned && p !in visits
    ensures Stacked(t, visits + [p], scanned, if t[p].Dir? then pending + [p] else pending)
  {
    assert forall x :: x in visits + [p] <==> x in visits || x == p;
    assert forall x :: x in pending + [p] <==> x in pending || x == p;
    if t[p].Dir? {
      VisitOneMore(pending, p);
    }
  }

  lemma FindEntry(t: Tree, visits: seq<Path>, result: map<Path, Digest>, p: Path)
    requires Found(t, visits, result) && p in t
    ensures Found(t, visits + [p], if IsComponent(p, t[p]) then result[p := Digest(t[p].content)] else result)
  {
    assert forall x :: x in visits + [p] <==> x in visits || x == p;
  }

  /** What one more entry does to the counters, and that no prefix of the walk exceeds the whole tree. */
  lemma CountEntry(t: Tree, visits: seq<Path>, p: Path)
    requires Distinct(visits) && ToSet(visits) <= t.Keys && p in t && p !in visits
    ensures ToSet(visits + [p]) <= t.Keys
    ensures |visits| + 1 <= |t|
    ensures TotalSize(t, ToSet(visits + [p])) == TotalSize(t, ToSet(visits)) + Size(t[p])
    ensures TotalSize(t, ToSet(visits + [p])) <= TotalSize(t, t.Keys)
  {
    VisitOneMore(visits, p);
    TotalSizeOfOneMore(t, ToSet(visits), p);
    DistinctCount(visits + [p]);
    SizeOfSubset(ToSet(visits + [p]), t.Keys);
    TotalSizeMonotone(t, ToSet(visits + [p]), t.Keys);
  }
}
