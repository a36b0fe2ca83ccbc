/** The gate on excluded library families, and the install step that first proves and then deletes. */
module GplGate {
  import opened Bytes
  import opened Wrappers
  import opened ElfDynamic
  import opened PackageTree

  /** The excluded families, by the start of the library name. */
  predicate Excluded(name: string) {
    "libjbig.so" <= name || "libayatana-indicator" <= name || "libindicator3.so" <= name
  }

  predicate ExcludedByName(p: Path) {
    p != [] && Excluded(p[|p| - 1])
  }

  /** The file can be read for its needed libraries, and none of them is excluded. */
  ghost predicate Independent(content: seq<byte>) {
    exists names :: Lists(Taken(content), names) && forall n <- names :: !Excluded(n)
  }

  /** No component is named in an excluded family or depends on one. */
  ghost predicate Clean(t: Tree) {
    forall p <- t :: IsComponent(p, t[p]) ==> !ExcludedByName(p) && Independent(t[p].content)
  }

  method NeedsExcluded(content: seq<byte>) returns (refused: bool)
    ensures refused <==> !Independent(content)
  {
    var dependencies := Needed(content);
    match dependencies
    case None => refused := true;
    case Some(names) =>
      refused := exists n <- names :: Excluded(n);
      if refused && Independent(content) {
        ghost var others :| Lists(Taken(content), others) && forall n <- others :: !Excluded(n);
        ListsOnce(Taken(content), names, others);
      }
  }

  /** The number of components of an admissible and clean package; `None` is a raised error. */
  method VerifyKnownGplAbsent(t: Tree) returns (r: Option<nat>)
    requires WellFormed(t)
    ensures r.Some? <==> Admissible(t) && Clean(t)
    ensures r.Some? ==> r.value == |Selected(t)|
  {
    var selected, _ := SelectedFiles(t);
    if selected.None? {
      return None;
    }
    var todo := selected.value.Keys;
    while todo != {}
      invariant todo <= selected.value.Keys
      invariant forall p <- selected.value.Keys - todo :: !ExcludedByName(p) && Independent(t[p].content)
    {
      var p :| p in todo;
      var refused := NeedsExcluded(t[p].content);
      if ExcludedByName(p) || refused {
        assert IsComponent(p, t[p]);
        return None;
      }
      todo := todo - {p};
    }
    assert forall p <- t :: IsComponent(p, t[p]) ==> p in selected.value.Keys - todo;
    r := Some(|selected.value|);
  }

  /** A library of the reviewed source build, and the name it replaces. */
  datatype Item = Item(soname: string, library: seq<byte>)

  datatype Architecture = X86_64 | Aarch64

  /** The machine number that an ELF header gives for the architecture. */
  function MachineOf(a: Architecture): nat {
    match a
    case X86_64 => 62
    case Aarch64 => 183
  }

  /** A source build that has passed its own checks. */
  datatype Build = Build(architecture: Architecture, items: seq<Item>)

  function Destination(item: Item): Path {
    ["usr", "lib", item.soname]
  }

  const CLIENT: Path := ["usr", "bin", "jstorrent-client"]

  /** Reading follows a symbolic link that stays inside the package. */
  function ContentAt(t: Tree, p: Path): Option<seq<byte>> {
    if p !in t then None
    else match t[p]
      case File(content) => Some(content)
      case Link(Inside(q)) => if q in t && t[q].File? then Some(t[q].content) else None
      case _ => None
  }

  predicate ArchitectureMatches(t: Tree, architecture: Architecture) {
    var client := ContentAt(t, CLIENT);
    client.Some? && |client.value| >= 20 && Field(client.value, 18, 2) == MachineOf(architecture)
  }

  /** A desktop binary, reached directly or through a link, matches exactly if its header is long enough and holds the
      low octet of the machine number at 18 and a zero at 19. */
  lemma ArchitectureRead(t: Tree, architecture: Architecture, content: seq<byte>)
    requires var client := ["usr", "bin", "jstorrent-client"];
             && client in t
             && (t[client] == File(content)
                 || (t[client].Link? && t[client].target.Inside?
                     && t[client].target.path in t && t[t[client].target.path] == File(content)))
    ensures ArchitectureMatches(t, architecture) <==>
            && |content| >= 20
            && content[18] == (match architecture case X86_64 => 62 case Aarch64 => 183)
            && content[19] == 0
  {
    if |content| >= 20 {
      var field := content[18..20];
      assert field[0] == content[18] && field[1] == content[19] && field[1..] == [content[19]];
      assert LittleEndian(field[1..]) == content[19] + 256 * LittleEndian([]);
    }
  }

  /** Without a readable desktop binary no architecture matches. */
  lemma NoDesktopBinary(t: Tree, architecture: Architecture)
    requires var client := ["usr", "bin", "jstorrent-client"];
             client !in t || t[client].Dir? || t[client].Special? || (t[client].Link? && t[client].target.Outside?)
    ensures !ArchitectureMatches(t, architecture)
  {}

  /** A library is excluded by how its name starts, whatever version follows, and only in these families. */
  lemma ExcludedFamilies(name: string)
    ensures Excluded(name) <==>
            || (|name| >= 10 && name[..10] == "libjbig.so")
            || (|name| >= 20 && name[..20] == "libayatana-indicator")
            || (|name| >= 16 && name[..16] == "libindicator3.so")
  {}

  /** The tree with every item copied over its destination. */
  function Replaced(t: Tree, items: seq<Item>): Tree {
    if items == [] then t
    else
      var last := items[|items| - 1];
      Replaced(t, items[..|items| - 1])[Destination(last) := File(last.library)]
  }

  /** The name stands for a plain file. */
  predicate PlainAt(t: Tree, p: Path) {
    p in t && t[p].File?
  }

  /** Every item in front of number `n` replaces a plain file. */
  predicate AllPlain(t: Tree, items: seq<Item>, n: nat)
    requires n <= |items|
  {
    forall k: nat :: k < n ==> PlainAt(t, Destination(items[k]))
  }

  function Removals(t: Tree): set<Path> {
    set p <- t | IsComponent(p, t[p]) && ExcludedByName(p)
  }

  /** No component that stays depends on an excluded family. */
  ghost predicate Proven(t: Tree) {
    forall p <- t :: IsComponent(p, t[p]) && !ExcludedByName(p) ==> Independent(t[p].content)
  }

  /** No symbolic link leads to a file that is about to be removed. */
  ghost predicate Unlinked(t: Tree) {
    forall p <- t :: t[p].Link? && t[p].target.Inside? ==> t[p].target.path !in Removals(t)
  }

  datatype Outcome =
    | Installed
    | BuildRefused
    | ArchitectureRefused
    | DestinationRefused(copied: nat)
    | InventoryRefused
    | StillNeeded
    | GateRefused

  /** The proof loop: no component that stays needs an excluded library. */
  method ProveUnneeded(t: Tree, inventory: map<Path, Digest>) returns (proven: bool)
    requires inventory == Selected(t)
    ensures proven <==> Proven(t)
  {
    var todo := inventory.Keys;
    while todo != {}
      invariant todo <= inventory.Keys
      invariant forall p <- inventory.Keys - todo :: !ExcludedByName(p) ==> Independent(t[p].content)
    {
      var p :| p in todo;
      if !ExcludedByName(p) {
        var refused := NeedsExcluded(t[p].content);
        if refused {
          assert IsComponent(p, t[p]);
          return false;
        }
      }
      todo := todo - {p};
    }
    assert forall p <- t :: IsComponent(p, t[p]) ==> p in inventory.Keys - todo;
    proven := true;
  }

  /** The build is for the machine of the package, and every destination can be replaced. */
  predicate Copied(t: Tree, build: Build) {
    ArchitectureMatches(t, build.architecture) && AllPlain(t, build.items, |build.items|)
  }

  class Package {
    var files: Tree

    constructor (t: Tree)
      ensures files == t
    {
      files := t;
    }

    /** The copy loop: it ends at the first destination that is not a plain file of the package, and that was one or not
        before the loop. */
    method CopyItems(items: seq<Item>) returns (count: nat)
      requires WellFormed(files)
      modifies this
      ensures WellFormed(files)
      ensures count <= |items| && files == Replaced(old(files), items[..count])
      ensures AllPlain(old(files), items, count)
      ensures count < |items| ==> !PlainAt(old(files), Destination(items[count]))
    {
      count := 0;
      while count < |items|
        invariant count <= |items| && WellFormed(files)
        invariant files == Replaced(old(files), items[..count])
        invariant AllPlain(old(files), items, count)
        invariant forall p :: PlainAt(files, p) <==> PlainAt(old(files), p)
      {
        var destination := Destination(items[count]);
        if !PlainAt(files, destination) {
          return;
        }
        assert items[..count + 1][..count] == items[..count];
        Overwrite(files, destination, items[count].library);
        files := files[destination := File(items[count].library)];
        count := count + 1;
      }
    }

    /** Replace the libraries, prove that nothing left needs the excluded ones, and only then delete those. */
    method Install(loaded: Option<Build>) returns (outcome: Outcome)
      requires WellFormed(files)
      modifies this
      ensures WellFormed(files)
      ensures outcome == BuildRefused <==> loaded.None?
      ensures outcome == BuildRefused ==> files == old(files)
      ensures loaded.Some? ==>
        var build, before := loaded.value, old(files);
        var copied := Replaced(before, build.items);
        match outcome
        case BuildRefused => false
        case ArchitectureRefused => files == before && !ArchitectureMatches(before, build.architecture)
        // The refused destination is the first that is not a plain file; only the items in front of it were copied.
        case DestinationRefused(k) =>
          && ArchitectureMatches(before, build.architecture)
          && k < |build.items| && AllPlain(before, build.items, k)
          && !PlainAt(before, Destination(build.items[k]))
          && files == Replaced(before, build.items[..k])
        // Up to here nothing is deleted, and nothing but the destinations changes.
        case InventoryRefused => Copied(before, build) && files == copied && !Admissible(copied)
        case StillNeeded =>
          Copied(before, build) && files == copied && Admissible(copied) && !Proven(copied)
        // The proof has been found: exactly the excluded components are gone, every other file is unchanged, and the
        // gate refuses only if a link leads to one of them.
        case GateRefused =>
          && Copied(before, build)
          && files == copied - Removals(copied)
          && Admissible(copied) && Proven(copied) && !Unlinked(copied)
        case Installed =>
          && Copied(before, build)
          && files == copied - Removals(copied)
          && Admissible(copied) && Proven(copied) && Unlinked(copied)
          && Admissible(files) && Clean(files)
    {
      if loaded.None? {
        return BuildRefused;
      }
      var build := loaded.value;
      if !ArchitectureMatches(files, build.architecture) {
        return ArchitectureRefused;
      }
      var count := CopyItems(build.items);
      if count < |build.items| {
        return DestinationRefused(count);
      }
      assert build.items[..count] == build.items;
      ghost var copied := files;
      var inventory, _ := SelectedFiles(files);
      if inventory.None? {
        return InventoryRefused;
      }
      var proven := ProveUnneeded(files, inventory.value);
      if !proven {
        return StillNeeded;
      }
      var removals := set p <- inventory.value.Keys | ExcludedByName(p);
      assert removals == Removals(copied);
      files := files - removals;
      GateAfterRemoval(copied);
      var verified := VerifyKnownGplAbsent(files);
      outcome := if verified.Some? then Installed else GateRefused;
    }
  }

  lemma Overwrite(t: Tree, p: Path, content: seq<byte>)
    requires WellFormed(t) && p in t && t[p].File?
    ensures WellFormed(t[p := File(content)])
  {}

  /** Every name that is no destination keeps its node. */
  lemma {:induction false} ReplacedElsewhere(t: Tree, items: seq<Item>, p: Path)
    requires forall i <- items :: Destination(i) != p
    ensures p in Replaced(t, items) <==> p in t
    ensures p in t ==> Replaced(t, items)[p] == t[p]
  {
    if items != [] {
      var last := items[|items| - 1];
      assert last in items;
      ReplacedElsewhere(t, items[..|items| - 1], p);
    }
  }

  /** A destination ends up with the library of the last item that replaces it. */
  lemma {:induction false} ReplacedAt(t: Tree, items: seq<Item>, i: nat)
    requires i < |items| && forall j :: i < j < |items| ==> items[j].soname != items[i].soname
    ensures var p := ["usr", "lib", items[i].soname];
            p in Replaced(t, items) && Replaced(t, items)[p] == File(items[i].library)
    decreases |items|
  {
    var last := items[|items| - 1];
    if i < |items| - 1 {
      ReplacedAt(t, items[..|items| - 1], i);
      assert Destination(last)[2] != Destination(items[i])[2];
    }
  }

  /** Removed are exactly the components whose file name is in an excluded family, in whatever directory. */
  lemma RemovedExactly(t: Tree, directory: Path, name: string)
    ensures directory + [name] in Removals(t) <==> directory + [name] in Selected(t) && Excluded(name)
  {
    var p := directory + [name];
    assert p[|p| - 1] == name;
  }

  /** With the proof in hand the gate after the removal fails on nothing but a link to a removed file. */
  lemma GateAfterRemoval(t: Tree)
    requires WellFormed(t) && Admissible(t) && Proven(t)
    ensures var pruned := t - Removals(t);
            && WellFormed(pruned)
            && Clean(pruned)
            && (Admissible(pruned) <==> Unlinked(t))
  {
    var pruned := t - Removals(t);
    assert forall p <- pruned :: pruned[p] == t[p];
    assert forall d :: IsDir(t, d) ==> IsDir(pruned, d);
    SizeOfSubset(pruned.Keys, t.Keys);
    TotalSizeSame(t, pruned, pruned.Keys);
    TotalSizeMonotone(t, pruned.Keys, t.Keys);
    SizeOfSubset(Selected(pruned).Keys, Selected(t).Keys);
    LinksAfterRemoval(t);
  }

  /** A package whose final gate refuses: an excluded library, needed by nothing, and a link to it. */
  lemma GateCanRefuse()
    ensures var t: Tree := map[["libjbig.so.0"] := File(MAGIC), ["libjbig.so"] := Link(Inside(["libjbig.so.0"]))];
            && WellFormed(t) && Admissible(t) && Proven(t) && !Unlinked(t)
            && !Admissible(t - Removals(t))
  {
    var library, link: Path := ["libjbig.so.0"], ["libjbig.so"];
    var t: Tree := map[library := File(MAGIC), link := Link(Inside(library))];
    assert library != link by {
      assert |library[0]| != |link[0]|;
    }
    assert t.Keys == {library, link};
    TotalSizeOfOneMore(t, {}, library);
    TotalSizeOfOneMore(t, {library}, link);
    assert TotalSize(t, {}) == 0 && {} + {library} == {library} && {library} + {link} == t.Keys;
    assert Selected(t).Keys <= {library};
    SizeOfSubset(Selected(t).Keys, {library});
    assert library in Removals(t) && t[link].target.path == library;
    GateAfterRemoval(t);
  }

  lemma LinksAfterRemoval(t: Tree)
    requires forall p <- t :: Allowed(t, t[p])
    ensures (forall p <- t - Removals(t) :: Allowed(t - Removals(t), t[p])) <==> Unlinked(t)
  {
    var pruned := t - Removals(t);
    forall p | p in t && t[p].Link?
      ensures p in pruned
    {}
    assert [] !in Removals(t);
  }

  lemma {:induction false} TotalSizeSame(t: Tree, u: Tree, paths: set<Path>)
    requires paths <= t.Keys && paths <= u.Keys
    requires forall p <- paths :: t[p] == u[p]
    ensures TotalSize(t, paths) == TotalSize(u, paths)
    decreases |paths|
  {
    if p :| p in paths {
      var rest := paths - {p};
      assert paths == rest + {p};
      TotalSizeOfOneMore(t, rest, p);
      TotalSizeOfOneMore(u, rest, p);
      TotalSizeSame(t, u, rest);
    }
  }
}
