/** What the verifier of source archives notices: for every way of adding, dropping or replacing one member of an
    accepted archive, exactly when the result is accepted again. */
module SourceTampering {
  import opened Wrappers
  import opened SourceNames
  import opened SourceCarrier

  /** The inventory fixes everything: two accepted archives with the same last inventory have the same members with the
      same digests. */
  lemma InventoryDetermines(a: seq<Member>, b: seq<Member>, sha: string -> string)
    requires Accepted(a, sha) && Accepted(b, sha) && LastInventory(a) == LastInventory(b)
    ensures Actual(a, sha) == Actual(b, sha) && |a| == |b|
  {
    OwnNamePresent(a);
    OwnNamePresent(b);
    var inventory := LastInventory(a).value;
    var i :| 0 <= i < |a| && a[i] == inventory;
    var j :| 0 <= j < |b| && b[j] == inventory;
    ActualOfMembers(a, sha);
    ActualOfMembers(b, sha);
    assert Actual(a, sha)[a[i].name] == Actual(b, sha)[b[j].name];
    ActualCount(a, sha);
    ActualCount(b, sha);
  }

  /** A member that does not become the last inventory does not change which inventory counts. */
  lemma OtherMember(a: seq<Member>, m: Member, b: seq<Member>)
    requires !IsInventory(m.name) || LastInventory(b).Some?
    ensures LastInventory(a + [m] + b) == LastInventory(a + b)
  {
    LastInventoryOfSum(a, b);
    LastInventoryOfSum(a + [m], b);
    LastInventoryOfSum(a, [m]);
  }

  /** Adding a member, or dropping one: not both archives are accepted. */
  lemma AddedOrDropped(a: seq<Member>, m: Member, b: seq<Member>, sha: string -> string)
    requires !IsInventory(m.name) || LastInventory(b).Some?
    ensures !(Accepted(a + b, sha) && Accepted(a + [m] + b, sha))
  {
    OtherMember(a, m, b);
    if Accepted(a + b, sha) && Accepted(a + [m] + b, sha) {
      InventoryDetermines(a + b, a + [m] + b, sha);
    }
  }

  /** Renaming a listed member, or changing its content so that the digest changes: not both archives are accepted. */
  lemma RenamedOrChanged(a: seq<Member>, m: Member, n: Member, b: seq<Member>, sha: string -> string)
    requires (!IsInventory(m.name) && !IsInventory(n.name)) || LastInventory(b).Some?
    requires m.name != n.name || sha(m.data) != sha(n.data)
    ensures !(Accepted(a + [m] + b, sha) && Accepted(a + [n] + b, sha))
  {
    OtherMember(a, m, b);
    OtherMember(a, n, b);
    var first, second := a + [m] + b, a + [n] + b;
    if Accepted(first, sha) && Accepted(second, sha) {
      InventoryDetermines(first, second, sha);
      assert first[|a|] == m && second[|a|] == n;
      DigestAt(first, |a|, sha);
      DigestAt(second, |a|, sha);
      if m.name != n.name {
        NameElsewhere(a, m, n, b, sha);
      }
    }
  }

  lemma DigestAt(ms: seq<Member>, i: nat, sha: string -> string)
    requires DistinctNames(ms) && i < |ms|
    ensures ms[i].name in Actual(ms, sha) && Actual(ms, sha)[ms[i].name] == sha(ms[i].data)
  {
    ActualOfMembers(ms, sha);
  }

  lemma NameElsewhere(a: seq<Member>, m: Member, n: Member, b: seq<Member>, sha: string -> string)
    requires DistinctNames(a + [m] + b) && m.name != n.name
    ensures m.name !in Actual(a + [n] + b, sha)
  {
    var first, second := a + [m] + b, a + [n] + b;
    ActualOfMembers(second, sha);
    SameElsewhere(a, m, n, b);
    assert first[|a|] == m && second[|a|] == n;
  }

  lemma SameElsewhere(a: seq<Member>, m: Member, n: Member, b: seq<Member>)
    ensures forall j :: 0 <= j < |a + [m] + b| && j != |a| ==> (a + [m] + b)[j] == (a + [n] + b)[j]
  {}

  /** The names of the members are safe, distinct and those of regular files. */
  predicate Orderly(ms: seq<Member>) {
    AllPermitted(ms) && DistinctNames(ms)
  }

  predicate IsNew(name: string, ms: seq<Member>) {
    forall m <- ms :: m.name != name
  }

  /** A member with that name, in front of `b`, is the inventory that counts. */
  predicate Counts(name: string, b: seq<Member>) {
    IsInventory(name) && LastInventory(b).None?
  }

  /** What an inventory member lists. */
  function Listed(inventory: Member): Option<map<string, string>> {
    Expected(SplitLines(inventory.data), ParentName(inventory.name))
  }

  /** A line of an inventory in directory `root` can hold the name. */
  predicate Listable(name: string, root: string) {
    if root == "." then Unbroken(name) else root + "/" <= name && Unbroken(name[|root| + 1..])
  }

  /** The name as that line holds it. */
  function Relative(name: string, root: string): string
    requires Listable(name, root)
  {
    if root == "." then name else name[|root| + 1..]
  }

  predicate AllListable(ms: seq<Member>, root: string) {
    forall m <- ms :: Listable(m.name, root)
  }

  lemma InsertedIndex(a: seq<Member>, m: Member, b: seq<Member>)
    ensures forall j :: 0 <= j < |a| ==> (a + [m] + b)[j] == (a + b)[j]
    ensures (a + [m] + b)[|a|] == m
    ensures forall j :: |a| <= j < |a + b| ==> (a + [m] + b)[j + 1] == (a + b)[j]
  {}

  lemma InsertedDistinct(a: seq<Member>, m: Member, b: seq<Member>)
    ensures DistinctNames(a + [m] + b) <==> DistinctNames(a + b) && IsNew(m.name, a + b)
  {
    InsertedIndex(a, m, b);
    var with, rest := a + [m] + b, a + b;
    if DistinctNames(with) {
      forall i, j | 0 <= i < j < |rest|
        ensures rest[i].name != rest[j].name
      {
        assert with[if i < |a| then i else i + 1].name != with[if j < |a| then j else j + 1].name;
      }
      forall x | x in rest
        ensures x.name != m.name
      {
        var i :| 0 <= i < |rest| && rest[i] == x;
        assert with[if i < |a| then i else i + 1] == x;
      }
    }
    if DistinctNames(rest) && IsNew(m.name, rest) {
      forall i, j | 0 <= i < j < |with|
        ensures with[i].name != with[j].name
      {
        InsertedPair(a, m, b, i, j);
      }
    }
  }

  lemma InsertedPair(a: seq<Member>, m: Member, b: seq<Member>, i: nat, j: nat)
    requires DistinctNames(a + b) && IsNew(m.name, a + b) && i < j < |a + [m] + b|
    ensures (a + [m] + b)[i].name != (a + [m] + b)[j].name
  {
    InsertedIndex(a, m, b);
    var with, rest := a + [m] + b, a + b;
    if i == |a| {
      assert with[j] == rest[j - 1] && rest[j - 1] in rest;
    } else if j == |a| {
      assert with[i] == rest[i] && rest[i] in rest;
    } else {
      var k, l := if i < |a| then i else i - 1, if j < |a| then j else j - 1;
      assert with[i] == rest[k] && with[j] == rest[l] && k < l;
    }
  }

  lemma InsertedOrderly(a: seq<Member>, m: Member, b: seq<Member>)
    ensures Orderly(a + [m] + b) <==> Orderly(a + b) && SafeName(m.name) && m.regular && IsNew(m.name, a + b)
  {
    InsertedDistinct(a, m, b);
    var with, rest := a + [m] + b, a + b;
    assert forall x :: x in with <==> x in rest || x == m;
    assert m in with;
  }

  lemma {:induction false} InsertedActual(a: seq<Member>, m: Member, b: seq<Member>, sha: string -> string)
    requires IsNew(m.name, b)
    ensures Actual(a + [m] + b, sha) == Actual(a + b, sha)[m.name := sha(m.data)]
  {
    if b == [] {
      assert a + [m] + b == a + [m] && a + b == a;
      Snoc(a, m, sha);
    } else {
      var rest, last := b[..|b| - 1], b[|b| - 1];
      assert last in b && forall x <- rest :: x in b;
      InsertedActual(a, m, rest, sha);
      ActualOfSum(a + [m], b, sha);
      ActualOfSum(a, b, sha);
      TwoUpdates(Actual(a + rest, sha), m.name, sha(m.data), last.name, sha(last.data));
    }
  }

  lemma ActualOfSum(a: seq<Member>, b: seq<Member>, sha: string -> string)
    requires b != []
    ensures var rest, last := b[..|b| - 1], b[|b| - 1];
            Actual(a + b, sha) == Actual(a + rest, sha)[last.name := sha(last.data)]
  {
    var rest, last := b[..|b| - 1], b[|b| - 1];
    assert a + b == (a + rest) + [last];
    Snoc(a + rest, last, sha);
  }

  lemma TwoUpdates<K, V>(m: map<K, V>, k: K, v: V, l: K, w: V)
    requires k != l
    ensures m[k := v][l := w] == m[l := w][k := v]
  {}

  lemma NewNotActual(ms: seq<Member>, name: string, sha: string -> string)
    requires IsNew(name, ms)
    ensures name !in Actual(ms, sha)
  {
    ActualOfMembers(ms, sha);
  }

  lemma MatchesOwn(ms: seq<Member>, m: Member, sha: string -> string)
    requires SafeName(m.name) && IsInventory(m.name) && m.name in Actual(ms, sha)
    ensures Matches(ms, m, sha) <==>
            Listed(m).Some? && Actual(ms, sha) == Listed(m).value[m.name := Actual(ms, sha)[m.name]]
  {
    OwnName(m.name);
  }

  /** The member `m` is an inventory of the members `rest`; what it says about itself is ignored. */
  predicate Inventories(m: Member, rest: seq<Member>, sha: string -> string) {
    Listed(m).Some? && Listed(m).value - {m.name} == Actual(rest, sha)
  }

  /** A regular member with that name can join the members. */
  predicate Joins(m: Member, rest: seq<Member>) {
    SafeName(m.name) && m.regular && IsNew(m.name, rest)
  }

  /** An inventory that counts is accepted at any place exactly when the others are orderly, its own name is safe and
      new, and it lists the others with their digests. */
  lemma InventoryAcceptedIff(a: seq<Member>, m: Member, b: seq<Member>, sha: string -> string)
    requires Counts(m.name, b)
    ensures Accepted(a + [m] + b, sha) <==> Orderly(a + b) && Joins(m, a + b) && Inventories(m, a + b, sha)
  {
    var ms, rest := a + [m] + b, a + b;
    LastInventoryOfSum(a + [m], b);
    LastInventoryOfSum(a, [m]);
    InsertedOrderly(a, m, b);
    if Orderly(rest) && Joins(m, rest) {
      InsertedActual(a, m, b, sha);
      NewNotActual(rest, m.name, sha);
      MatchesOwn(ms, m, sha);
      if Listed(m).Some? {
        SameButOwn(Actual(rest, sha), m.name, sha(m.data), Listed(m).value);
      }
    }
  }

  lemma SameButOwn(actual: map<string, string>, own: string, digest: string, listed: map<string, string>)
    requires own !in actual
    ensures actual[own := digest] == listed[own := digest] <==> listed - {own} == actual
  {
    var with, more := actual[own := digest], listed[own := digest];
    assert with - {own} == actual && more - {own} == listed - {own};
    if listed - {own} == actual {
      assert forall x :: x in with <==> x in more;
      assert forall x <- with :: with[x] == more[x];
    }
  }

  /** Every name that an inventory lists can stand in a line of it. */
  lemma {:induction false} ExpectedListable(lines: seq<string>, root: string, name: string)
    requires (forall l <- lines :: Unbroken(l)) && Expected(lines, root).Some?
    requires name in Expected(lines, root).value
    ensures Listable(name, root)
  {
    var rest, line := lines[..|lines| - 1], lines[|lines| - 1];
    assert line in lines && forall l <- rest :: l in lines;
    RelativeUnbroken(line);
    var relative := ParseLine(line).value.relative;
    if name == Below(root, relative) {
      assert root != "." ==> (root + "/" + relative)[|root| + 1..] == relative;
    } else {
      ExpectedListable(rest, root, name);
    }
  }

  lemma OthersListable(ms: seq<Member>, m: Member, sha: string -> string)
    requires Inventories(m, ms, sha)
    ensures AllListable(ms, ParentName(m.name))
  {
    LinesAreUnbroken(m.data);
    ActualOfMembers(ms, sha);
    forall x | x in ms
      ensures Listable(x.name, ParentName(m.name))
    {
      var j :| 0 <= j < |ms| && ms[j] == x;
      assert x.name in Actual(ms, sha);
      ExpectedListable(SplitLines(m.data), ParentName(m.name), x.name);
    }
  }

  lemma ParentIsPlain(name: string)
    requires SafeName(name) && IsInventory(name)
    ensures ParentName(name) == "." || PlainName(ParentName(name))
    ensures Below(ParentName(name), INVENTORY) == name
  {
    OwnName(name);
    SafeNameIff(name);
    InventoryIsPlain();
    if name == INVENTORY {
      assert Kept([INVENTORY]) == [INVENTORY];
    } else {
      var root := name[..|name| - |INVENTORY| - 1];
      assert name == root + "/" + INVENTORY;
      ParentBelow(root);
    }
  }

  /** The members as a writer with that root would be given them. */
  function RelativeSources(ms: seq<Member>, root: string): (files: seq<(string, string)>)
    requires AllListable(ms, root)
    ensures |files| == |ms|
  {
    seq(|ms|, i requires 0 <= i < |ms| => (assert ms[i] in ms; (Relative(ms[i].name, root), ms[i].data)))
  }

  lemma RelativeBelow(name: string, root: string)
    requires Listable(name, root)
    ensures Below(root, Relative(name, root)) == name
  {}

  lemma RelativeSafe(name: string, root: string)
    requires Listable(name, root) && SafeName(name) && (root == "." || PlainName(root))
    requires name != Below(root, INVENTORY)
    ensures SafeName(Relative(name, root)) && Carried(Relative(name, root), root)
  {
    RelativeBelow(name, root);
    if root != "." {
      SafeBelow(root, Relative(name, root));
      SafeNameIff(Relative(name, root));
      SplitOfPlain(".");
      assert Split(".")[0] in Split(".");
    }
  }

  /** The inventory that a writer would make for these members. */
  function Forged(ms: seq<Member>, name: string, sha: string -> string): Member
    requires AllListable(ms, ParentName(name))
  {
    Member(name, true, Terminated(Lines(RelativeSources(ms, ParentName(name)), sha)))
  }

  lemma RelativeMember(ms: seq<Member>, root: string, i: nat)
    requires AllListable(ms, root) && AllPermitted(ms) && i < |ms|
    ensures MemberOf(RelativeSources(ms, root)[i], root) == ms[i]
  {
    assert ms[i] in ms;
    RelativeBelow(ms[i].name, root);
  }

  lemma RelativePackable(ms: seq<Member>, name: string)
    requires Orderly(ms) && SafeName(name) && IsInventory(name) && IsNew(name, ms)
    requires AllListable(ms, ParentName(name))
    ensures var root := ParentName(name);
            var files := RelativeSources(ms, root);
            Packable(files, false) && MembersOf(files, root) == ms && forall f <- files :: Carried(f.0, root)
  {
    var root := ParentName(name);
    var files := RelativeSources(ms, root);
    ParentIsPlain(name);
    forall i | 0 <= i < |ms|
      ensures SafeName(files[i].0) && Carried(files[i].0, root) && MemberOf(files[i], root) == ms[i]
    {
      assert ms[i] in ms;
      RelativeSafe(ms[i].name, root);
      RelativeMember(ms, root, i);
    }
    forall i, j | 0 <= i < j < |files|
      ensures files[i].0 != files[j].0
    {
      assert ms[i].name != ms[j].name;
      RelativeMember(ms, root, i);
      RelativeMember(ms, root, j);
    }
    assert MembersOf(files, root) == ms;
  }

  /** Where an inventory stands does not matter as long as it counts. */
  lemma MovedInventory(a: seq<Member>, m: Member, b: seq<Member>, sha: string -> string)
    requires Counts(m.name, b) && Accepted(a + b + [m], sha)
    ensures Accepted(a + [m] + b, sha)
  {
    assert a + b + [m] + [] == a + b + [m] && a + b + [] == a + b;
    InventoryAcceptedIff(a + b, m, [], sha);
    InventoryAcceptedIff(a, m, b, sha);
  }

  /** An inventory of an orderly list of listable members can be put anywhere behind the last one. */
  lemma ForgedAccepted(a: seq<Member>, name: string, b: seq<Member>, sha: string -> string)
    requires IsHash(sha) && Counts(name, b)
    requires Orderly(a + b) && SafeName(name) && IsNew(name, a + b) && AllListable(a + b, ParentName(name))
    ensures Accepted(a + [Forged(a + b, name, sha)] + b, sha)
  {
    var root, rest, m := ParentName(name), a + b, Forged(a + b, name, sha);
    var files := RelativeSources(rest, root);
    ParentIsPlain(name);
    RelativePackable(rest, name);
    assert Carrier(files, root, files, sha) == rest + [m];
    CarriedIsAccepted(files, root, files, sha);
    MovedInventory(a, m, b, sha);
  }

  /** Members admit an inventory with that name, at a place where it counts, exactly when they are orderly, the name is
      safe and new, and every one of them lies in its directory under a name without line breaks. */
  lemma AdmitsInventoryIff(a: seq<Member>, name: string, b: seq<Member>, sha: string -> string)
    requires IsHash(sha) && Counts(name, b)
    ensures (exists data :: Accepted(a + [Member(name, true, data)] + b, sha)) <==>
            Orderly(a + b) && SafeName(name) && IsNew(name, a + b) && AllListable(a + b, ParentName(name))
  {
    if data :| Accepted(a + [Member(name, true, data)] + b, sha) {
      var m := Member(name, true, data);
      InventoryAcceptedIff(a, m, b, sha);
      OthersListable(a + b, m, sha);
    }
    if Orderly(a + b) && SafeName(name) && IsNew(name, a + b) && AllListable(a + b, ParentName(name)) {
      ForgedAccepted(a, name, b, sha);
      assert Forged(a + b, name, sha) == Member(name, true, Forged(a + b, name, sha).data);
    }
  }

  /** Some member with that name can be added to an accepted archive, at that place, without being noticed, exactly when
      it becomes the inventory that counts, under a safe new name, and every other member lies in its directory under a
      name without line breaks. Every other addition is refused. */
  lemma AddedIff(a: seq<Member>, name: string, b: seq<Member>, sha: string -> string)
    requires IsHash(sha) && Accepted(a + b, sha)
    ensures (exists data :: Accepted(a + [Member(name, true, data)] + b, sha)) <==>
            && Counts(name, b) && SafeName(name) && IsNew(name, a + b)
            && AllListable(a + b, ParentName(name))
  {
    if Counts(name, b) {
      AdmitsInventoryIff(a, name, b, sha);
    } else {
      forall data | Accepted(a + [Member(name, true, data)] + b, sha)
        ensures false
      {
        AddedOrDropped(a, Member(name, true, data), b, sha);
      }
    }
  }

  /** Inventory `p` lists what inventory `m` lists, apart from what each says about itself and about `p`. */
  predicate ListsRestOf(p: Member, m: Member) {
    && Listed(p).Some? && Listed(m).Some?
    && Listed(p).value - {p.name} == Listed(m).value - {m.name} - {p.name}
  }

  /** The same, and in addition that name with that digest. */
  predicate ListsRestAnd(p: Member, m: Member, name: string, digest: string) {
    && Listed(p).Some? && Listed(m).Some?
    && Listed(p).value - {p.name} == (Listed(m).value - {m.name} - {p.name})[name := digest]
  }

  lemma OrderlyAcceptedIff(ms: seq<Member>, sha: string -> string)
    requires Orderly(ms) && LastInventory(ms).Some?
    ensures var p := LastInventory(ms).value;
            Accepted(ms, sha) <==> Listed(p).Some? && Listed(p).value - {p.name} == Actual(ms, sha) - {p.name}
  {
    var p := LastInventory(ms).value;
    InventoryActual(ms, sha);
    MatchesOwn(ms, p, sha);
    if Listed(p).Some? {
      SameBesideOwn(Actual(ms, sha), p.name, Listed(p).value);
    }
  }

  lemma InventoryActual(ms: seq<Member>, sha: string -> string)
    requires AllPermitted(ms) && LastInventory(ms).Some?
    ensures var p := LastInventory(ms).value;
            SafeName(p.name) && IsInventory(p.name) && p.name in Actual(ms, sha)
  {
    LastInventoryIsMember(ms);
    ActualOfMembers(ms, sha);
  }

  lemma SameBesideOwn(actual: map<string, string>, own: string, listed: map<string, string>)
    requires own in actual
    ensures actual == listed[own := actual[own]] <==> listed - {own} == actual - {own}
  {
    assert actual == (actual - {own})[own := actual[own]];
    SameButOwn(actual - {own}, own, actual[own], listed);
  }

  /** Without the inventory that counts, the archive is orderly, and its members are what that inventory lists. */
  lemma WithoutInventory(a: seq<Member>, m: Member, b: seq<Member>, sha: string -> string)
    requires Accepted(a + [m] + b, sha) && Counts(m.name, b)
    ensures Orderly(a + b) && LastInventory(a + b) == LastInventory(a)
    ensures Listed(m).Some? && Actual(a + b, sha) == Listed(m).value - {m.name}
  {
    InventoryAcceptedIff(a, m, b, sha);
    LastInventoryOfSum(a, b);
  }

  /** Dropping a member of an accepted archive goes unnoticed exactly when it was the inventory that counts and there is
      one before it that lists the rest of what it lists. */
  lemma DroppedIff(a: seq<Member>, m: Member, b: seq<Member>, sha: string -> string)
    requires Accepted(a + [m] + b, sha)
    ensures Accepted(a + b, sha) <==>
            Counts(m.name, b) && LastInventory(a).Some? && ListsRestOf(LastInventory(a).value, m)
  {
    if Counts(m.name, b) {
      WithoutInventory(a, m, b, sha);
      if LastInventory(a).Some? {
        OrderlyAcceptedIff(a + b, sha);
      }
    } else {
      AddedOrDropped(a, m, b, sha);
    }
  }

  /** The last inventory lists the members and, beside them, that name with that digest; what it says about itself is
      ignored. */
  predicate ListsBeside(rest: seq<Member>, name: string, digest: string, sha: string -> string)
    requires LastInventory(rest).Some?
  {
    var inventory := LastInventory(rest).value;
    && Listed(inventory).Some?
    && Listed(inventory).value - {inventory.name} == (Actual(rest, sha) - {inventory.name})[name := digest]
  }

  /** The archive with a member that is not the inventory that counts, seen from the archive without it. */
  lemma OrdinaryAcceptedIff(a: seq<Member>, m: Member, b: seq<Member>, sha: string -> string)
    requires !Counts(m.name, b) && LastInventory(a + b).Some?
    ensures Accepted(a + [m] + b, sha) <==>
            Orderly(a + b) && Joins(m, a + b) && ListsBeside(a + b, m.name, sha(m.data), sha)
  {
    var ms, rest := a + [m] + b, a + b;
    OtherMember(a, m, b);
    InsertedOrderly(a, m, b);
    if Orderly(rest) && Joins(m, rest) {
      var inventory := LastInventory(rest).value;
      OwnNamePresent(rest);
      LastInventoryIsMember(rest);
      ActualOfMembers(rest, sha);
      InsertedActual(a, m, b, sha);
      MatchesOwn(ms, inventory, sha);
      if Listed(inventory).Some? {
        SameButOneMore(Actual(rest, sha), inventory.name, m.name, sha(m.data), Listed(inventory).value);
      }
    }
  }

  lemma SameButOneMore(actual: map<string, string>, own: string, name: string, digest: string,
                       listed: map<string, string>)
    requires own in actual && name != own
    ensures actual[name := digest] == listed[own := actual[own]] <==>
            listed - {own} == (actual - {own})[name := digest]
  {
    var others := (actual - {own})[name := digest];
    assert actual[name := digest] == others[own := actual[own]];
    SameButOwn(others, own, actual[own], listed);
  }

  /** Replacing one member by another, neither of which is the inventory that counts, goes unnoticed exactly when the
      new one is regular and has the same name and the same digest. */
  lemma ReplacedIff(a: seq<Member>, m: Member, n: Member, b: seq<Member>, sha: string -> string)
    requires Accepted(a + [m] + b, sha) && !Counts(m.name, b) && !Counts(n.name, b)
    ensures Accepted(a + [n] + b, sha) <==> n.regular && n.name == m.name && sha(n.data) == sha(m.data)
  {
    OtherMember(a, m, b);
    OrdinaryAcceptedIff(a, m, b, sha);
    OrdinaryAcceptedIff(a, n, b, sha);
    if n.name != m.name || sha(n.data) != sha(m.data) {
      RenamedOrChanged(a, m, n, b, sha);
    } else {
      assert Joins(n, a + b) <==> n.regular;
    }
  }

  /** Two inventories of one directory list the same, apart from what they say about themselves. */
  predicate ListTheSame(m: Member, n: Member) {
    && Listed(m).Some? && Listed(n).Some?
    && Listed(m).value - {m.name} == Listed(n).value - {n.name}
  }

  /** Replacing the text of the inventory that counts goes unnoticed exactly when both texts list the same, apart from
      what they say about the inventory itself. */
  lemma InventoryReplacedIff(a: seq<Member>, m: Member, n: Member, b: seq<Member>, sha: string -> string)
    requires Accepted(a + [m] + b, sha) && Counts(m.name, b) && n.name == m.name
    ensures Accepted(a + [n] + b, sha) <==> n.regular && ListTheSame(m, n)
  {
    InventoryAcceptedIff(a, m, b, sha);
    InventoryAcceptedIff(a, n, b, sha);
    assert Joins(n, a + b) <==> n.regular;
  }

  /** Replacing any member by an inventory that counts can go unnoticed exactly under the conditions for adding one to
      the members that stay. */
  lemma ReplacedByInventoryIff(a: seq<Member>, m: Member, name: string, b: seq<Member>, sha: string -> string)
    requires IsHash(sha) && Accepted(a + [m] + b, sha) && Counts(name, b)
    ensures (exists data :: Accepted(a + [Member(name, true, data)] + b, sha)) <==>
            SafeName(name) && IsNew(name, a + b) && AllListable(a + b, ParentName(name))
  {
    InsertedOrderly(a, m, b);
    AdmitsInventoryIff(a, name, b, sha);
  }

  /** Replacing the inventory that counts by an ordinary member goes unnoticed exactly when that member can join the
      others and an inventory before it lists it beside the rest of what the replaced one lists. */
  lemma InventoryDemotedIff(a: seq<Member>, m: Member, n: Member, b: seq<Member>, sha: string -> string)
    requires Accepted(a + [m] + b, sha) && Counts(m.name, b) && !IsInventory(n.name)
    ensures Accepted(a + [n] + b, sha) <==>
            && Joins(n, a + b) && LastInventory(a).Some?
            && ListsRestAnd(LastInventory(a).value, m, n.name, sha(n.data))
  {
    WithoutInventory(a, m, b, sha);
    if LastInventory(a).Some? {
      OrdinaryAcceptedIff(a, n, b, sha);
    } else {
      OtherMember(a, n, b);
    }
  }

  /** An inventory that can be dropped again: behind an empty one in a directory, one at the top that lists it. */
  lemma DropUnnoticed(sha: string -> string)
    requires IsHash(sha)
    ensures var first := Member(Below("x", INVENTORY), true, "");
            exists data :: Accepted([first] + [Member(INVENTORY, true, data)], sha) && Accepted([first], sha)
  {
    var first := Member(Below("x", INVENTORY), true, "");
    NestedInventory(sha);
    InventoryBelow(".");
    assert [first] + [] == [first];
    AddedIff([first], INVENTORY, [], sha);
    var data :| Accepted([first] + [Member(INVENTORY, true, data)] + [], sha);
    assert [first] + [Member(INVENTORY, true, data)] + [] == [first] + [Member(INVENTORY, true, data)];
  }

  lemma NestedInventory(sha: string -> string)
    ensures var name := Below("x", INVENTORY);
            Accepted([Member(name, true, "")], sha) && name != INVENTORY && Unbroken(name)
  {
    var name := Below("x", INVENTORY);
    PlainX();
    InventoryBelow("x");
    NothingListed("x");
    AcceptedAlone(name, "", map[], sha);
    InventoryUnbroken();
    assert |name| > |INVENTORY|;
  }

  lemma PlainX()
    ensures PlainName("x")
  {
    SplitOfPlain("x");
  }

  /** What an inventory says about itself does not matter: an empty one, alone in its archive, may be replaced by one
      that gives its own name any digest. */
  lemma OwnDigestUnnoticed(digest: string, sha: string -> string)
    requires IsHash(sha) && IsHex64(digest)
    ensures Accepted([Member(INVENTORY, true, "")], sha)
    ensures Accepted([Member(INVENTORY, true, Terminated([PrintLine(Entry(digest, INVENTORY))]))], sha)
  {
    InventoryBelow(".");
    InventoryUnbroken();
    NothingListed(".");
    AcceptedAlone(INVENTORY, "", map[], sha);
    var line := PrintLine(Entry(digest, INVENTORY));
    OneLine(digest, INVENTORY, line);
    AcceptedAlone(INVENTORY, Terminated([line]), map[INVENTORY := digest], sha);
  }

  lemma InventoryUnbroken()
    ensures Unbroken(INVENTORY)
  {}

  lemma NothingListed(root: string)
    ensures Expected(SplitLines(""), root) == Some(map[])
  {
    assert SplitLines("") == [];
  }

  lemma AcceptedAlone(name: string, text: string, listed: map<string, string>, sha: string -> string)
    requires SafeName(name) && IsInventory(name)
    requires Expected(SplitLines(text), ParentName(name)) == Some(listed) && listed.Keys <= {name}
    ensures Accepted([Member(name, true, text)], sha)
  {
    assert listed - {name} == map[];
    AcceptedAloneIff(Member(name, true, text), sha);
  }

  lemma AcceptedAloneIff(m: Member, sha: string -> string)
    requires IsInventory(m.name)
    ensures Accepted([m], sha) <==> SafeName(m.name) && m.regular && Inventories(m, [], sha)
  {
    var none: seq<Member> := [];
    assert none + none == none && none + [m] + none == [m];
    InventoryAcceptedIff(none, m, none, sha);
  }

  lemma OneLine(digest: string, name: string, line: string)
    requires IsHex64(digest) && line == PrintLine(Entry(digest, name)) && SafeName(name) && Unbroken(name)
    ensures SplitLines(Terminated([line])) == [line]
    ensures Expected([line], ".") == Some(map[name := digest])
  {
    LineUnbroken(digest, name);
    SplitTerminated([line]);
    ExpectedOfOne(digest, name, line);
  }

  lemma ExpectedOfOne(digest: string, name: string, line: string)
    requires IsHex64(digest) && line == PrintLine(Entry(digest, name)) && SafeName(name)
    ensures Expected([line], ".") == Some(map[name := digest])
  {
    ParsePrinted(Entry(digest, name));
    assert [line][..0] == [] && Expected([], ".") == Some(map[]);
    assert ExpectedMore(map[], line, ".") == Some(map[name := digest]);
  }
}
