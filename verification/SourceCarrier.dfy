/** The archives of corresponding sources: two writers that add a text inventory, and the streaming verifier. */
module SourceCarrier {
  import opened Wrappers
  import opened SourceNames
  import opened NameOrder

  datatype Member = Member(name: string, regular: bool, data: string)

  const INVENTORY := "SHA256SUMS"

  /** A hash function renders every content as 64 hexadecimal digits. */
  ghost predicate IsHash(sha: string -> string) {
    forall s :: IsHex64(sha(s))
  }

  predicate IsInventory(name: string) {
    name == INVENTORY || (|name| > |INVENTORY| && name[|name| - |INVENTORY| - 1..] == "/" + INVENTORY)
  }

  /** The parent directory as the path library renders it. */
  function ParentName(name: string): string {
    var kept := Kept(Split(name));
    Rendered(if kept == [] then [] else kept[..|kept| - 1])
  }

  function Below(root: string, relative: string): string {
    if root == "." then relative else root + "/" + relative
  }

  predicate DistinctNames(ms: seq<Member>) {
    forall i, j :: 0 <= i < j < |ms| ==> ms[i].name != ms[j].name
  }

  /** The inventory that counts is the last one in the stream. */
  function LastInventory(ms: seq<Member>): Option<Member> {
    if ms == [] then None
    else
      var last := ms[|ms| - 1];
      if IsInventory(last.name) then Some(last) else LastInventory(ms[..|ms| - 1])
  }

  /** Every member with the digest of its content. */
  function Actual(ms: seq<Member>, sha: string -> string): map<string, string> {
    if ms == [] then map[]
    else
      var last := ms[|ms| - 1];
      Actual(ms[..|ms| - 1], sha)[last.name := sha(last.data)]
  }

  function ExpectedMore(m: map<string, string>, line: string, root: string): Option<map<string, string>> {
    var e := ParseLine(line);
    if e.None? then None
    else
      var name := Below(root, e.value.relative);
      if !SafeName(name) || !IsHex64(e.value.digest) || name in m then None else Some(m[name := e.value.digest])
  }

  /** What the inventory lists; `None` where a line raises. */
  function Expected(lines: seq<string>, root: string): Option<map<string, string>> {
    if lines == [] then Some(map[])
    else
      var earlier := Expected(lines[..|lines| - 1], root);
      if earlier.None? then None else ExpectedMore(earlier.value, lines[|lines| - 1], root)
  }

  predicate AllPermitted(ms: seq<Member>) {
    forall m <- ms :: SafeName(m.name) && m.regular
  }

  /** The listed members, and beside them the inventory itself, are exactly the members of the archive. */
  predicate Matches(ms: seq<Member>, inventory: Member, sha: string -> string) {
    var root := ParentName(inventory.name);
    var expected := Expected(SplitLines(inventory.data), root);
    var actual := Actual(ms, sha);
    var own := Below(root, INVENTORY);
    expected.Some? && own in actual && actual == expected.value[own := actual[own]]
  }

  predicate Accepted(ms: seq<Member>, sha: string -> string) {
    && AllPermitted(ms)
    && DistinctNames(ms)
    && LastInventory(ms).Some?
    && Matches(ms, LastInventory(ms).value, sha)
  }

  /** Read the members once, then compare. The result is the member count; `None` is a raised error. */
  method VerifyArchive(ms: seq<Member>, sha: string -> string) returns (r: Option<nat>)
    ensures r == if Accepted(ms, sha) then Some(|ms|) else None
  {
    var permitted, actual, checks := ReadMembers(ms, sha);
    if !permitted || checks.None? {
      return None;
    }
    var (root, lines) := checks.value;
    var expected := ReadInventory(lines, root);
    if expected.None? {
      return None;
    }
    var own := if root == "." then INVENTORY else root + "/" + INVENTORY;
    OwnNameRead(ms, sha);
    if actual != expected.value[own := actual[own]] {
      return None;
    }
    ActualCount(ms, sha);
    r := Some(|actual|);
  }

  /** The loop over the stream. */
  method ReadMembers(ms: seq<Member>, sha: string -> string)
    returns (permitted: bool, actual: map<string, string>, checks: Option<(string, seq<string>)>)
    ensures permitted <==> AllPermitted(ms) && DistinctNames(ms)
    ensures permitted ==> actual == Actual(ms, sha) && checks == ChecksOf(LastInventory(ms))
  {
    permitted, actual, checks := true, map[], None;
    assert ms[..0] == [];
    for i := 0 to |ms|
      invariant permitted && AllPermitted(ms[..i]) && DistinctNames(ms[..i])
      invariant actual == Actual(ms[..i], sha)
      invariant checks == ChecksOf(LastInventory(ms[..i]))
    {
      var member := ms[i];
      OneMoreMember(ms, i, sha);
      if !SafeName(member.name) || !member.regular || member.name in actual {
        permitted := false;
        return;
      }
      if IsInventory(member.name) {
        checks := Some((ParentName(member.name), SplitLines(member.data)));
      }
      actual := actual[member.name := sha(member.data)];
    }
    assert ms[..|ms|] == ms;
  }

  lemma OneMoreMember(ms: seq<Member>, i: nat, sha: string -> string)
    requires i < |ms| && AllPermitted(ms[..i]) && DistinctNames(ms[..i])
    ensures SafeName(ms[i].name) && ms[i].regular && ms[i].name !in Actual(ms[..i], sha) ==>
              AllPermitted(ms[..i + 1]) && DistinctNames(ms[..i + 1])
    ensures !(SafeName(ms[i].name) && ms[i].regular && ms[i].name !in Actual(ms[..i], sha)) ==>
              !(AllPermitted(ms) && DistinctNames(ms))
    ensures Actual(ms[..i + 1], sha) == Actual(ms[..i], sha)[ms[i].name := sha(ms[i].data)]
    ensures LastInventory(ms[..i + 1]) == if IsInventory(ms[i].name) then Some(ms[i]) else LastInventory(ms[..i])
  {
    ActualOfMembers(ms[..i], sha);
    TakeSnoc(ms, i);
    if ms[i].name in Actual(ms[..i], sha) {
      var j :| 0 <= j < i && ms[..i][j].name == ms[i].name;
      assert ms[j].name == ms[i].name;
    }
    Snoc(ms[..i], ms[i], sha);
  }

  lemma Snoc(ms: seq<Member>, m: Member, sha: string -> string)
    ensures Actual(ms + [m], sha) == Actual(ms, sha)[m.name := sha(m.data)]
    ensures LastInventory(ms + [m]) == if IsInventory(m.name) then Some(m) else LastInventory(ms)
  {
    assert (ms + [m])[..|ms|] == ms;
  }

  lemma OwnNameRead(ms: seq<Member>, sha: string -> string)
    requires AllPermitted(ms) && LastInventory(ms).Some?
    ensures Below(ParentName(LastInventory(ms).value.name), INVENTORY) in Actual(ms, sha)
  {
    OwnNamePresent(ms);
    ActualOfMembers(ms, sha);
  }

  function ChecksOf(inventory: Option<Member>): Option<(string, seq<string>)> {
    match inventory
    case None => None
    case Some(m) => Some((ParentName(m.name), SplitLines(m.data)))
  }

  /** The loop over the inventory lines. */
  method ReadInventory(lines: seq<string>, root: string) returns (expected: Option<map<string, string>>)
    ensures expected == Expected(lines, root)
  {
    var found: map<string, string> := map[];
    assert lines[..0] == [];
    for i := 0 to |lines|
      invariant Expected(lines[..i], root) == Some(found)
    {
      TakeSnoc(lines, i);
      var entry := ParseLine(lines[i]);
      if entry.None? {
        ExpectedPrefix(lines, root, i + 1);
        return None;
      }
      var name := Below(root, entry.value.relative);
      if !SafeName(name) || !IsHex64(entry.value.digest) || name in found {
        ExpectedPrefix(lines, root, i + 1);
        return None;
      }
      found := found[name := entry.value.digest];
    }
    assert lines[..|lines|] == lines;
    expected := Some(found);
  }

  lemma {:induction false} ExpectedPrefix(lines: seq<string>, root: string, n: nat)
    requires n <= |lines| && Expected(lines[..n], root).None?
    ensures Expected(lines, root).None?
    decreases |lines| - n
  {
    if n == |lines| {
      assert lines[..n] == lines;
    } else {
      TakeSnoc(lines, n);
      ExpectedPrefix(lines, root, n + 1);
    }
  }

  lemma {:induction false} ActualOfMembers(ms: seq<Member>, sha: string -> string)
    ensures forall name :: name in Actual(ms, sha) <==> exists j :: 0 <= j < |ms| && ms[j].name == name
    ensures DistinctNames(ms) ==> forall j :: 0 <= j < |ms| ==> Actual(ms, sha)[ms[j].name] == sha(ms[j].data)
  {
    if ms != [] {
      ActualOfMembers(ms[..|ms| - 1], sha);
    }
  }

  lemma {:induction false} ActualCount(ms: seq<Member>, sha: string -> string)
    requires DistinctNames(ms)
    ensures |Actual(ms, sha)| == |ms|
  {
    if ms != [] {
      var rest, last := ms[..|ms| - 1], ms[|ms| - 1];
      ActualCount(rest, sha);
      ActualOfMembers(rest, sha);
      assert last.name !in Actual(rest, sha);
    }
  }

  lemma {:induction false} LastInventoryIsMember(ms: seq<Member>)
    requires LastInventory(ms).Some?
    ensures LastInventory(ms).value in ms && IsInventory(LastInventory(ms).value.name)
  {
    var rest, last := ms[..|ms| - 1], ms[|ms| - 1];
    assert ms == rest + [last];
    if !IsInventory(last.name) {
      LastInventoryIsMember(rest);
    }
  }

  /** The inventory of a safe name is the checksum file of its own directory. */
  lemma OwnName(name: string)
    requires SafeName(name) && IsInventory(name)
    ensures Below(ParentName(name), INVENTORY) == name
  {
    SafeNameIff(name);
    InventoryIsPlain();
    if name == INVENTORY {
      assert Kept([INVENTORY]) == [INVENTORY];
    } else {
      var root := name[..|name| - |INVENTORY| - 1];
      assert name == root + "/" + INVENTORY;
      ParentBelow(root);
    }
  }

  lemma InventoryIsPlain()
    ensures Split(INVENTORY) == [INVENTORY] && PlainName(INVENTORY)
  {
    OneComponent(INVENTORY);
  }

  lemma OneComponent(name: string)
    requires NoSlash(name) && |name| > 2 && '\n' !in name
    ensures Split(name) == [name] && PlainName(name)
  {
    SplitOfPlain(name);
  }

  lemma ParentBelow(root: string)
    requires PlainName(root + "/" + INVENTORY)
    ensures PlainName(root) && root != "." && ParentName(root + "/" + INVENTORY) == root
  {
    var name := root + "/" + INVENTORY;
    InventoryIsPlain();
    SplitOfTwo(root, INVENTORY);
    var parts := Split(root);
    assert Split(name)[..|parts|] == parts && forall p <- parts :: p in Split(name);
    assert forall i :: 0 <= i < |root| ==> root[i] == name[i];
    KeptPlain(Split(name));
    JoinOfSplit(root);
    SplitOfPlain(".");
  }

  lemma OwnNamePresent(ms: seq<Member>)
    requires AllPermitted(ms) && LastInventory(ms).Some?
    ensures var inventory := LastInventory(ms).value;
            inventory in ms && Below(ParentName(inventory.name), INVENTORY) == inventory.name
  {
    LastInventoryIsMember(ms);
    OwnName(LastInventory(ms).value.name);
  }

  lemma {:induction false} LastInventoryOfSum(a: seq<Member>, b: seq<Member>)
    ensures LastInventory(a + b) == if LastInventory(b).Some? then LastInventory(b) else LastInventory(a)
  {
    if b == [] {
      assert a + b == a;
    } else {
      var rest, last := b[..|b| - 1], b[|b| - 1];
      assert (a + b)[..|a + b| - 1] == a + rest;
      LastInventoryOfSum(a, rest);
    }
  }

  const MAX_MEMBERS := 200000
  const MAX_TOTAL := 8 * 1024 * 1024 * 1024

  function TotalSize(files: seq<(string, string)>): nat {
    if files == [] then 0 else TotalSize(files[..|files| - 1]) + |files[|files| - 1].1|
  }

  /** No name twice. */
  ghost predicate DistinctFirst(order: seq<(string, string)>) {
    forall i, j :: 0 <= i < j < |order| ==> order[i].0 != order[j].0
  }

  predicate AllSafe(files: seq<(string, string)>) {
    forall f <- files :: SafeName(f.0)
  }

  /** What a writer checks of its sources: safe names, each once, and for the second writer two bounds. */
  ghost predicate Packable(files: seq<(string, string)>, bounded: bool) {
    && AllSafe(files)
    && DistinctFirst(files)
    && (bounded ==> |files| <= MAX_MEMBERS && TotalSize(files) <= MAX_TOTAL)
  }

  /** The second writer packs what the first does, up to 200000 sources and 8 GiB. */
  lemma SecondWriterBounds(files: seq<(string, string)>)
    ensures Packable(files, true) <==>
            Packable(files, false) && |files| <= 200000 && TotalSize(files) <= 8 * 1024 * 1024 * 1024
  {}

  /** The inventory is the file of that name in any directory. */
  lemma InventoryNames(name: string)
    ensures IsInventory(name) <==>
            name == "SHA256SUMS" || (|name| > 10 && name[|name| - 11] == '/' && name[|name| - 10..] == "SHA256SUMS")
  {
    if |name| > 10 {
      assert name[|name| - 11..] == [name[|name| - 11]] + name[|name| - 10..];
    }
  }

  function MemberOf(f: (string, string), root: string): Member {
    Member(Below(root, f.0), true, f.1)
  }

  function MembersOf(files: seq<(string, string)>, root: string): (ms: seq<Member>)
    ensures |ms| == |files| && forall i :: 0 <= i < |ms| ==> ms[i] == MemberOf(files[i], root)
  {
    seq(|files|, i requires 0 <= i < |files| => MemberOf(files[i], root))
  }

  function LineOf(f: (string, string), sha: string -> string): string {
    PrintLine(Entry(sha(f.1), f.0))
  }

  function Lines(order: seq<(string, string)>, sha: string -> string): (lines: seq<string>)
    ensures |lines| == |order|
  {
    if order == [] then [] else Lines(order[..|order| - 1], sha) + [LineOf(order[|order| - 1], sha)]
  }

  /** The archive of a writer: the sources below the root, and the inventory that lists them in an order. */
  function Carrier(files: seq<(string, string)>, root: string, order: seq<(string, string)>, sha: string -> string)
    : seq<Member>
  {
    MembersOf(files, root) + [Member(Below(root, INVENTORY), true, Terminated(Lines(order, sha)))]
  }

  /** Both writers: the first with a directory as root, the second at the top level and with bounds. */
  method Package(files: seq<(string, string)>, root: string, bounded: bool, sha: string -> string)
    returns (r: Option<seq<Member>>, ghost order: seq<(string, string)>)
    ensures r.Some? <==> Packable(files, bounded)
    ensures r.Some? ==> Sorts(order, files) && r.value == Carrier(files, root, order, sha)
  {
    order := [];
    var added, archive, checks := AddStreams(files, root, bounded, sha);
    if !added {
      return None, [];
    }
    var inventory := ListInventory(files, checks, sha);
    order :| Sorts(order, files) && inventory == Terminated(Lines(order, sha));
    r := Some(archive + [Member(Below(root, INVENTORY), true, inventory)]);
  }

  /** The loop that adds the sources, one member each. */
  method AddStreams(files: seq<(string, string)>, root: string, bounded: bool, sha: string -> string)
    returns (added: bool, archive: seq<Member>, checks: map<string, string>)
    ensures added <==> Packable(files, bounded)
    ensures added ==> checks == Checks(files, sha) && archive == MembersOf(files, root)
  {
    var total: nat := 0;
    added, archive, checks := true, [], map[];
    NoneAdded(files, root, bounded, sha);
    for i := 0 to |files|
      invariant added && Added(files, i, root, bounded, sha, archive, checks, total)
    {
      AddNext(files, i, root, bounded, sha, archive, checks, total);
      total := total + |files[i].1|;
      if !Fits(files[i].0, checks, total, bounded) {
        added := false;
        return;
      }
      archive := archive + [MemberOf(files[i], root)];
      checks := checks[files[i].0 := sha(files[i].1)];
    }
    AllAdded(files, root, bounded, sha, archive, checks, total);
  }

  /** The first `n` sources have been added. */
  predicate Added(files: seq<(string, string)>, n: nat, root: string, bounded: bool, sha: string -> string,
                  archive: seq<Member>, checks: map<string, string>, total: nat) {
    && n <= |files| && Addable(files[..n], bounded, sha)
    && archive == MembersOf(files[..n], root)
    && checks == Checks(files[..n], sha) && total == TotalSize(files[..n])
  }

  lemma NoneAdded(files: seq<(string, string)>, root: string, bounded: bool, sha: string -> string)
    ensures Added(files, 0, root, bounded, sha, [], map[], 0)
  {
    assert files[..0] == [];
  }

  lemma AddNext(files: seq<(string, string)>, n: nat, root: string, bounded: bool, sha: string -> string,
                archive: seq<Member>, checks: map<string, string>, total: nat)
    requires Added(files, n, root, bounded, sha, archive, checks, total) && n < |files|
    ensures var (name, data) := files[n];
            if Fits(name, checks, total + |data|, bounded)
            then Added(files, n + 1, root, bounded, sha, archive + [MemberOf(files[n], root)],
                       checks[name := sha(data)], total + |data|)
            else !Packable(files, bounded)
  {
    TakeSnoc(files, n);
    AddOneMore(files[..n], files[n], root, bounded, sha);
    if !Addable(files[..n + 1], bounded, sha) {
      AddablePrefix(files, n + 1, bounded, sha);
    }
    AddableIff(files, bounded, sha);
  }

  lemma AllAdded(files: seq<(string, string)>, root: string, bounded: bool, sha: string -> string,
                 archive: seq<Member>, checks: map<string, string>, total: nat)
    requires Added(files, |files|, root, bounded, sha, archive, checks, total)
    ensures Packable(files, bounded) && checks == Checks(files, sha) && archive == MembersOf(files, root)
  {
    assert files[..|files|] == files;
    AddableIff(files, bounded, sha);
  }

  /** Every source passes the checks when its turn comes. */
  predicate Addable(files: seq<(string, string)>, bounded: bool, sha: string -> string) {
    if files == [] then true
    else
      var rest, last := files[..|files| - 1], files[|files| - 1];
      Addable(rest, bounded, sha) && Fits(last.0, Checks(rest, sha), TotalSize(rest) + |last.1|, bounded)
  }

  lemma AddOneMore(files: seq<(string, string)>, f: (string, string), root: string, bounded: bool,
                   sha: string -> string)
    ensures Addable(files + [f], bounded, sha) <==>
              Addable(files, bounded, sha) && Fits(f.0, Checks(files, sha), TotalSize(files) + |f.1|, bounded)
    ensures TotalSize(files + [f]) == TotalSize(files) + |f.1|
    ensures Checks(files + [f], sha) == Checks(files, sha)[f.0 := sha(f.1)]
    ensures MembersOf(files + [f], root) == MembersOf(files, root) + [MemberOf(f, root)]
  {
    assert (files + [f])[..|files|] == files;
  }

  lemma {:induction false} AddablePrefix(files: seq<(string, string)>, n: nat, bounded: bool, sha: string -> string)
    requires n <= |files| && !Addable(files[..n], bounded, sha)
    ensures !Addable(files, bounded, sha)
    decreases |files| - n
  {
    if n == |files| {
      assert files[..n] == files;
    } else {
      TakeSnoc(files, n);
      AddOneMore(files[..n], files[n], "", bounded, sha);
      AddablePrefix(files, n + 1, bounded, sha);
    }
  }

  /** The checks pass one by one exactly when the sources are packable as a whole. */
  lemma {:induction false} AddableIff(files: seq<(string, string)>, bounded: bool, sha: string -> string)
    ensures Addable(files, bounded, sha) <==> Packable(files, bounded)
  {
    if files != [] {
      var rest, last := files[..|files| - 1], files[|files| - 1];
      assert files == rest + [last];
      AddableIff(rest, bounded, sha);
      if DistinctFirst(rest) {
        ChecksOfFiles(rest, sha);
      }
      SafeOneMore(rest, last);
      DistinctOneMore(rest, last);
    }
  }

  lemma SafeOneMore(files: seq<(string, string)>, f: (string, string))
    ensures AllSafe(files + [f]) <==> AllSafe(files) && SafeName(f.0)
  {
    assert forall g :: g in files + [f] <==> g in files || g == f;
  }

  lemma DistinctOneMore(files: seq<(string, string)>, f: (string, string))
    ensures DistinctFirst(files + [f]) <==> DistinctFirst(files) && !exists g <- files :: g.0 == f.0
  {
    var all := files + [f];
    if g :| g in files && g.0 == f.0 {
      var j :| 0 <= j < |files| && files[j] == g;
      assert all[j].0 == all[|files|].0;
    }
    assert forall j :: 0 <= j < |files| ==> all[j] == files[j] && files[j] in files;
  }

  /** The checksums of the files by name. */
  function Checks(files: seq<(string, string)>, sha: string -> string): map<string, string> {
    if files == [] then map[]
    else Checks(files[..|files| - 1], sha)[files[|files| - 1].0 := sha(files[|files| - 1].1)]
  }

  lemma {:induction false} ChecksOfFiles(files: seq<(string, string)>, sha: string -> string)
    requires DistinctFirst(files)
    ensures |Checks(files, sha)| == |files|
    ensures forall f <- files :: f.0 in Checks(files, sha) && Checks(files, sha)[f.0] == sha(f.1)
    ensures forall name <- Checks(files, sha) :: exists f <- files :: f.0 == name
  {
    if files != [] {
      var rest, last := files[..|files| - 1], files[|files| - 1];
      assert files == rest + [last];
      DistinctOneMore(rest, last);
      ChecksOfFiles(rest, sha);
    }
  }

  /** A source that passes the checks of the writer. */
  predicate Fits(name: string, checks: map<string, string>, total: nat, bounded: bool) {
    SafeName(name) && name !in checks && (bounded ==> |checks| < MAX_MEMBERS && total <= MAX_TOTAL)
  }

  lemma TakeSnoc<T>(s: seq<T>, i: nat)
    requires i < |s|
    ensures s[..i + 1] == s[..i] + [s[i]] && s[..i + 1][..i] == s[..i] && s[i] in s
  {}

  /** The files again, in the order of their names. */
  ghost predicate Sorts(order: seq<(string, string)>, files: seq<(string, string)>) {
    multiset(order) == multiset(files) && Ascending(order)
  }

  /** The inventory depends on the files only, and not on the order in which they were added. */
  lemma InventoryReproducible(files: seq<(string, string)>, others: seq<(string, string)>,
                              order: seq<(string, string)>, otherOrder: seq<(string, string)>, root: string,
                              sha: string -> string)
    requires multiset(files) == multiset(others) && Sorts(order, files) && Sorts(otherOrder, others)
    requires root == "." || PlainName(root)
    ensures LastInventory(Carrier(files, root, order, sha)) == LastInventory(Carrier(others, root, otherOrder, sha))
  {
    AscendingUnique(order, otherOrder);
    CarrierInventory(files, root, order, sha);
    CarrierInventory(others, root, order, sha);
  }

  /** The text that lists every checksum once, in the order of the names. */
  method ListInventory(ghost files: seq<(string, string)>, checks: map<string, string>, sha: string -> string)
    returns (inventory: string)
    requires DistinctFirst(files) && checks == Checks(files, sha)
    ensures exists order :: Sorts(order, files) && inventory == Terminated(Lines(order, sha))
  {
    ChecksOfFiles(files, sha);
    inventory := "";
    ghost var order: seq<(string, string)> := [];
    var todo := checks.Keys;
    while todo != {}
      invariant todo <= checks.Keys && Listing(files, order, todo)
      invariant inventory == Terminated(Lines(order, sha))
      decreases todo
    {
      ghost var least := LeastExists(todo);
      var name :| name in todo && IsLeast(name, todo);
      ghost var f := ListNext(files, order, todo, name);
      OneMoreLine(order, f, sha);
      inventory := inventory + (checks[name] + "  " + name + "\n");
      order := order + [f];
      todo := todo - {name};
    }
    AllListed(files, order);
  }

  /** The files up to some name are listed in order; the names `todo` are still to come. */
  ghost predicate Listing(files: seq<(string, string)>, order: seq<(string, string)>, todo: set<string>) {
    && Ascending(order)
    && (forall f <- order :: f in files && forall n <- todo :: Before(f.0, n))
    && (forall f <- files :: f in order || f.0 in todo)
    && (forall n <- todo :: exists f <- files :: f.0 == n)
  }

  lemma ListNext(files: seq<(string, string)>, order: seq<(string, string)>, todo: set<string>, name: string)
    returns (f: (string, string))
    requires DistinctFirst(files) && Listing(files, order, todo) && IsLeast(name, todo)
    ensures f in files && f.0 == name && Listing(files, order + [f], todo - {name})
  {
    f :| f in files && f.0 == name;
    FileOnce(files, f);
    assert forall i :: 0 <= i < |order| ==> order[i] in order && Before(order[i].0, name);
    assert Ascending(order + [f]);
  }

  lemma AllListed(files: seq<(string, string)>, order: seq<(string, string)>)
    requires DistinctFirst(files) && Listing(files, order, {})
    ensures Sorts(order, files)
  {
    AscendingIsDistinct(order);
    SameMultiset(files, order);
  }

  lemma AscendingIsDistinct(order: seq<(string, string)>)
    requires Ascending(order)
    ensures DistinctFirst(order)
  {
    forall i, j | 0 <= i < j < |order|
      ensures order[i].0 != order[j].0
    {
      Trichotomy(order[i].0, order[j].0);
    }
  }

  lemma FileOnce(files: seq<(string, string)>, f: (string, string))
    requires DistinctFirst(files) && f in files
    ensures forall g <- files :: g.0 == f.0 ==> g == f
  {}

  lemma SameMultiset(files: seq<(string, string)>, order: seq<(string, string)>)
    requires DistinctFirst(files) && DistinctFirst(order)
    requires forall f :: f in order <==> f in files
    ensures multiset(order) == multiset(files)
  {
    forall f: (string, string)
      ensures multiset(order)[f] == multiset(files)[f]
    {
      OnceInDistinct(files, f);
      OnceInDistinct(order, f);
      assert f in files <==> f in multiset(files);
      assert f in order <==> f in multiset(order);
    }
  }

  lemma OneMoreLine(order: seq<(string, string)>, f: (string, string), sha: string -> string)
    ensures Terminated(Lines(order + [f], sha)) == Terminated(Lines(order, sha)) + (sha(f.1) + "  " + f.0 + "\n")
  {
    assert (order + [f])[..|order|] == order;
    TerminatedSnoc(Lines(order, sha), LineOf(f, sha));
  }

  lemma {:induction false} TerminatedSnoc(lines: seq<string>, line: string)
    ensures Terminated(lines + [line]) == Terminated(lines) + (line + "\n")
  {
    if lines == [] {
      assert [] + [line] == [line] && Terminated([line]) == line + "\n" + "";
    } else {
      assert (lines + [line])[1..] == lines[1..] + [line];
      TerminatedSnoc(lines[1..], line);
      assert lines[0] + "\n" + (Terminated(lines[1..]) + (line + "\n"))
          == lines[0] + "\n" + Terminated(lines[1..]) + (line + "\n");
    }
  }

  /** The names that the round trip carries: not the inventory's own, no line break, and below a directory not the
      lone dot. */
  predicate Carried(name: string, root: string) {
    name != INVENTORY && Unbroken(name) && (root != "." ==> name != ".")
  }

  /** The archive that a writer makes is accepted exactly when every source name is carried. */
  lemma CarrierAcceptedIff(files: seq<(string, string)>, root: string, order: seq<(string, string)>,
                           sha: string -> string)
    requires IsHash(sha) && Packable(files, false) && (root == "." || PlainName(root))
    requires multiset(order) == multiset(files)
    ensures Accepted(Carrier(files, root, order, sha), sha) <==> forall f <- files :: Carried(f.0, root)
  {
    var ms := Carrier(files, root, order, sha);
    if forall f <- files :: Carried(f.0, root) {
      CarriedIsAccepted(files, root, order, sha);
    }
    if Accepted(ms, sha) {
      forall f | f in files
        ensures Carried(f.0, root)
      {
        AcceptedIsCarried(files, root, order, sha, f);
      }
    }
  }

  /** A source that both writers pack and the verifier then refuses: its name holds a vertical tab. */
  lemma PackedButRefused(sha: string -> string)
    requires IsHash(sha)
    ensures var files := [("a\U{b}b", "")];
            && Packable(files, true)
            && !Accepted(Carrier(files, ".", files, sha), sha)
  {
    var name := "a\U{b}b";
    SplitOfPlain(name);
    SafeNameIff(name);
    var files := [(name, "")];
    assert files[..0] == [] && TotalSize(files) == 0;
    assert IsBreak(name[1]) && files[0] in files;
    CarrierAcceptedIff(files, ".", files, sha);
  }

  lemma BelowPlain(root: string, name: string)
    requires (root == "." || PlainName(root)) && SafeName(name)
    ensures SafeName(Below(root, name)) <==> root == "." || name != "."
  {
    SafeNameIff(name);
    if root != "." {
      SafeBelow(root, name);
      SplitOfPlain(".");
      assert Split(".")[0] in Split(".");
    }
  }

  lemma InventoryBelow(root: string)
    requires root == "." || PlainName(root)
    ensures SafeName(Below(root, INVENTORY)) && IsInventory(Below(root, INVENTORY))
    ensures ParentName(Below(root, INVENTORY)) == root
  {
    InventoryIsPlain();
    SafeNameIff(INVENTORY);
    if root == "." {
      assert Kept([INVENTORY]) == [INVENTORY];
    } else {
      SafeBelow(root, INVENTORY);
      EndsWithInventory(root);
      SplitOfTwo(root, INVENTORY);
      assert forall p :: p in Split(root + "/" + INVENTORY) <==> p in Split(root) || p in Split(INVENTORY);
      assert '\n' !in root + "/" + INVENTORY;
      ParentBelow(root);
    }
  }

  lemma EndsWithInventory(root: string)
    ensures IsInventory(root + "/" + INVENTORY)
  {
    var name := root + "/" + INVENTORY;
    assert name[|name| - |INVENTORY| - 1..] == "/" + INVENTORY;
  }

  lemma BelowInjective(root: string, a: string, b: string)
    ensures Below(root, a) == Below(root, b) <==> a == b
  {
    if root != "." && Below(root, a) == Below(root, b) {
      assert a == (root + "/" + a)[|root| + 1..];
      assert b == (root + "/" + b)[|root| + 1..];
    }
  }

  lemma CarrierInventory(files: seq<(string, string)>, root: string, order: seq<(string, string)>,
                         sha: string -> string)
    requires root == "." || PlainName(root)
    ensures LastInventory(Carrier(files, root, order, sha))
         == Some(Member(Below(root, INVENTORY), true, Terminated(Lines(order, sha))))
  {
    InventoryBelow(root);
  }

  /** If a name is listed, it is the name of a line, and lines hold no break. */
  lemma {:induction false} ExpectedUnbroken(lines: seq<string>, root: string, name: string)
    requires (forall l <- lines :: Unbroken(l)) && Expected(lines, root).Some?
    requires Below(root, name) in Expected(lines, root).value
    ensures Unbroken(name)
  {
    var rest, line := lines[..|lines| - 1], lines[|lines| - 1];
    assert line in lines && forall l <- rest :: l in lines;
    RelativeUnbroken(line);
    var relative := ParseLine(line).value.relative;
    if relative != name {
      BelowInjective(root, relative, name);
      ExpectedUnbroken(rest, root, name);
    }
  }

  lemma RelativeUnbroken(line: string)
    requires Unbroken(line)
    ensures ParseLine(line).Some? ==> Unbroken(ParseLine(line).value.relative)
  {}

  lemma AcceptedIsCarried(files: seq<(string, string)>, root: string, order: seq<(string, string)>,
                          sha: string -> string, f: (string, string))
    requires Packable(files, false) && (root == "." || PlainName(root)) && f in files
    requires Accepted(Carrier(files, root, order, sha), sha)
    ensures Carried(f.0, root)
  {
    var ms := Carrier(files, root, order, sha);
    var i :| 0 <= i < |files| && files[i] == f;
    assert ms[i] == MemberOf(f, root) && ms[i] in ms && ms[|files|].name == Below(root, INVENTORY);
    assert ms[i].name != ms[|files|].name;
    BelowPlain(root, f.0);
    CarrierInventory(files, root, order, sha);
    InventoryBelow(root);
    ListedUnbroken(ms, i, root, ms[|files|], f.0, sha);
  }

  lemma ListedUnbroken(ms: seq<Member>, i: nat, root: string, inventory: Member, name: string, sha: string -> string)
    requires i < |ms| && ms[i].name == Below(root, name) && ms[i].name != Below(root, INVENTORY)
    requires Matches(ms, inventory, sha) && ParentName(inventory.name) == root
    ensures Unbroken(name)
  {
    ActualOfMembers(ms, sha);
    LinesAreUnbroken(inventory.data);
    assert ms[i].name in Actual(ms, sha);
    ExpectedUnbroken(SplitLines(inventory.data), root, name);
  }

  lemma CarriedIsAccepted(files: seq<(string, string)>, root: string, order: seq<(string, string)>,
                          sha: string -> string)
    requires IsHash(sha) && Packable(files, false) && (root == "." || PlainName(root))
    requires multiset(order) == multiset(files)
    requires forall f <- files :: Carried(f.0, root)
    ensures Accepted(Carrier(files, root, order, sha), sha)
  {
    var ms := Carrier(files, root, order, sha);
    CarrierPermitted(files, root, order, sha);
    CarrierInventory(files, root, order, sha);
    InventoryBelow(root);
    SameElements(files, order);
    LinesUnbroken(order, sha);
    SplitTerminated(Lines(order, sha));
    ExpectedOfLines(order, root, sha);
    ActualOfMembers(ms, sha);
    ListedIsActual(files, root, order, ms[|files|], sha);
  }

  lemma {:induction false} LinesUnbroken(order: seq<(string, string)>, sha: string -> string)
    requires IsHash(sha) && forall f <- order :: Unbroken(f.0)
    ensures forall l <- Lines(order, sha) :: Unbroken(l)
  {
    if order != [] {
      var rest, last := order[..|order| - 1], order[|order| - 1];
      assert last in order && forall f <- rest :: f in order;
      LinesUnbroken(rest, sha);
      LineUnbroken(sha(last.1), last.0);
    }
  }

  lemma LineUnbroken(digest: string, name: string)
    requires IsHex64(digest) && Unbroken(name)
    ensures Unbroken(PrintLine(Entry(digest, name)))
  {
    assert forall i :: 0 <= i < 64 ==> digest[i] in digest;
  }

  lemma CarrierPermitted(files: seq<(string, string)>, root: string, order: seq<(string, string)>,
                         sha: string -> string)
    requires Packable(files, false) && (root == "." || PlainName(root))
    requires forall f <- files :: Carried(f.0, root)
    ensures AllPermitted(Carrier(files, root, order, sha)) && DistinctNames(Carrier(files, root, order, sha))
  {
    var ms := Carrier(files, root, order, sha);
    InventoryBelow(root);
    forall i | 0 <= i < |files|
      ensures SafeName(ms[i].name) && ms[i].name != Below(root, INVENTORY)
    {
      assert files[i] in files;
      BelowPlain(root, files[i].0);
      BelowInjective(root, files[i].0, INVENTORY);
    }
    forall i, j | 0 <= i < j < |files|
      ensures ms[i].name != ms[j].name
    {
      BelowInjective(root, files[i].0, files[j].0);
    }
  }

  /** A reordering has the same elements, and no name twice if the original has none. */
  lemma SameElements(files: seq<(string, string)>, order: seq<(string, string)>)
    requires multiset(order) == multiset(files) && DistinctFirst(files)
    ensures forall f :: f in order <==> f in files
    ensures DistinctFirst(order)
  {
    assert forall f :: f in order <==> f in multiset(order);
    assert forall f :: f in files <==> f in multiset(files);
    forall i, j | 0 <= i < j < |order|
      ensures order[i].0 != order[j].0
    {
      if order[i].0 == order[j].0 {
        OnceInDistinct(files, order[i]);
        TwiceIn(order, i, j);
      }
    }
  }

  lemma {:induction false} OnceInDistinct(files: seq<(string, string)>, f: (string, string))
    requires DistinctFirst(files)
    ensures multiset(files)[f] <= 1
    ensures forall g <- files :: f in files && g.0 == f.0 ==> g == f
  {
    if files != [] {
      var rest, last := files[..|files| - 1], files[|files| - 1];
      assert files == rest + [last] && last !in rest;
      OnceInDistinct(rest, f);
    }
  }

  lemma TwiceIn(order: seq<(string, string)>, i: nat, j: nat)
    requires i < j < |order|
    ensures order[i] == order[j] ==> multiset(order)[order[i]] >= 2
  {
    assert order == order[..j] + order[j..];
    assert order[..j][i] == order[i] && order[j..][0] == order[j];
  }

  /** The map gives exactly the names of the files below the root their digests. */
  ghost predicate ListsExactly(m: map<string, string>, order: seq<(string, string)>, root: string,
                               sha: string -> string) {
    && (forall f <- order :: Below(root, f.0) in m && m[Below(root, f.0)] == sha(f.1))
    && (forall name <- m :: exists f <- order :: Below(root, f.0) == name)
  }

  /** The inventory lists exactly the digests of the files in the order given. */
  lemma {:induction false} ExpectedOfLines(order: seq<(string, string)>, root: string, sha: string -> string)
    requires IsHash(sha) && DistinctFirst(order)
    requires forall f <- order :: SafeName(Below(root, f.0))
    ensures Expected(Lines(order, sha), root).Some?
    ensures ListsExactly(Expected(Lines(order, sha), root).value, order, root, sha)
  {
    if order != [] {
      var rest, last := order[..|order| - 1], order[|order| - 1];
      assert order == rest + [last];
      assert last in order && forall f <- rest :: f in order;
      ExpectedOfLines(rest, root, sha);
      ListOneMore(Expected(Lines(rest, sha), root).value, rest, last, root, sha);
      ExpectedOfMoreLines(rest, last, root, sha);
    }
  }

  lemma ExpectedOfMoreLines(rest: seq<(string, string)>, last: (string, string), root: string, sha: string -> string)
    requires Expected(Lines(rest, sha), root).Some?
    ensures Expected(Lines(rest + [last], sha), root)
         == ExpectedMore(Expected(Lines(rest, sha), root).value, LineOf(last, sha), root)
  {
    var order := rest + [last];
    assert order[..|rest|] == rest;
    var lines := Lines(order, sha);
    assert lines == Lines(rest, sha) + [LineOf(last, sha)] && lines[..|rest|] == Lines(rest, sha);
  }

  lemma ListOneMore(m: map<string, string>, rest: seq<(string, string)>, last: (string, string), root: string,
                    sha: string -> string)
    requires IsHash(sha) && DistinctFirst(rest + [last]) && ListsExactly(m, rest, root, sha)
    requires SafeName(Below(root, last.0))
    ensures ExpectedMore(m, LineOf(last, sha), root) == Some(m[Below(root, last.0) := sha(last.1)])
    ensures ListsExactly(m[Below(root, last.0) := sha(last.1)], rest + [last], root, sha)
  {
    ParsePrinted(Entry(sha(last.1), last.0));
    var all := rest + [last];
    forall f | f in rest
      ensures Below(root, f.0) != Below(root, last.0)
    {
      var i :| 0 <= i < |rest| && rest[i] == f;
      assert all[i].0 != all[|rest|].0;
      BelowInjective(root, f.0, last.0);
    }
    assert forall f :: f in all <==> f in rest || f == last;
  }

  lemma ListedIsActual(files: seq<(string, string)>, root: string, order: seq<(string, string)>, inventory: Member,
                       sha: string -> string)
    requires IsHash(sha) && DistinctFirst(order) && inventory.name == Below(root, INVENTORY)
    requires forall f :: f in order <==> f in files
    requires forall f <- order :: SafeName(Below(root, f.0))
    requires DistinctNames(MembersOf(files, root) + [inventory])
    ensures var actual := Actual(MembersOf(files, root) + [inventory], sha);
            var expected := Expected(Lines(order, sha), root);
            var own := Below(root, INVENTORY);
            expected.Some? && own in actual && actual == expected.value[own := actual[own]]
  {
    ExpectedOfLines(order, root, sha);
    var ms, expected := MembersOf(files, root) + [inventory], Expected(Lines(order, sha), root).value;
    forall j | 0 <= j < |files|
      ensures ms[j].name in expected && expected[ms[j].name] == sha(ms[j].data)
    {
      assert ms[j] == MemberOf(files[j], root) && files[j] in order;
    }
    forall name | name in expected
      ensures exists j :: 0 <= j < |files| && ms[j].name == name
    {
      var f :| f in order && Below(root, f.0) == name;
      var j :| 0 <= j < |files| && files[j] == f;
      assert ms[j] == MemberOf(files[j], root);
    }
    ActualOfListed(ms, |files|, expected, sha);
  }

  /** The members are those of the map and one more. */
  lemma ActualOfListed(ms: seq<Member>, n: nat, expected: map<string, string>, sha: string -> string)
    requires |ms| == n + 1 && DistinctNames(ms)
    requires forall j :: 0 <= j < n ==> ms[j].name in expected && expected[ms[j].name] == sha(ms[j].data)
    requires forall name <- expected :: exists j :: 0 <= j < n && ms[j].name == name
    ensures var own := ms[n].name;
            own in Actual(ms, sha) && Actual(ms, sha) == expected[own := Actual(ms, sha)[own]]
  {
    ActualOfMembers(ms, sha);
    var own, actual := ms[n].name, Actual(ms, sha);
    forall name | name in actual && name != own
      ensures name in expected && expected[name] == actual[name]
    {
      var j :| 0 <= j < |ms| && ms[j].name == name;
      assert j < n;
    }
    forall name | name in expected
      ensures name in actual && name != own
    {
      var j :| 0 <= j < n && ms[j].name == name;
      assert ms[j].name != ms[n].name;
    }
    assert ms[n].name in actual;
    OneMoreKey(actual, expected, own);
  }

  lemma OneMoreKey<K, V>(m: map<K, V>, less: map<K, V>, k: K)
    requires k in m && k !in less
    requires forall x <- m :: x != k ==> x in less && less[x] == m[x]
    requires forall x <- less :: x in m
    ensures m == less[k := m[k]]
  {}

  /** Package the sources and verify the result, as both writers do before they publish it: the member count, or an
      error exactly when a source is refused or a name is not carried. */
  method PackageAndVerify(files: seq<(string, string)>, root: string, bounded: bool, sha: string -> string)
    returns (r: Option<nat>)
    requires IsHash(sha) && (root == "." || PlainName(root))
    ensures r.Some? <==> Packable(files, bounded) && forall f <- files :: Carried(f.0, root)
    ensures r.Some? ==> r.value == |files| + 1
  {
    var archive, order := Package(files, root, bounded, sha);
    if archive.None? {
      return None;
    }
    CarrierAcceptedIff(files, root, order, sha);
    r := VerifyArchive(archive.value, sha);
  }
}
