/** Copying copyright notices together with every common licence text that they refer to, within a byte budget. */
module NoticeClosure {
  import opened Bytes
  import opened Wrappers

  const MAX_FILE := 16 * 1024 * 1024
  const MAX_TOTAL := 64 * 1024 * 1024

  /** A notice file, and what its text puts behind "/usr/share/common-licenses/", in sorted order. */
  datatype Text = Text(octets: seq<byte>, mentions: seq<string>)

  /** The common licence directory. */
  type Library = map<string, Text>

  /** Where a copy goes: below `common/`, or to one of the places that the caller chooses. */
  datatype Destination = Common(name: string) | Chosen(path: string)

  type Notices = map<Destination, Text>

  const ALIASES: map<string, string> :=
    map["GPL-2.0" := "GPL-2", "GPL-3.0" := "GPL-3", "LGPL-2.0" := "LGPL-2", "LGPL-3.0" := "LGPL-3"]

  /** A mention without the full stops that end it. */
  function Trim(mention: string): (name: string)
    ensures name <= mention
  {
    if mention != "" && mention[|mention| - 1] == '.' then Trim(mention[..|mention| - 1]) else mention
  }

  /** Exactly the full stops at the end are taken off. */
  lemma {:induction false} TrimsStops(mention: string)
    ensures forall i :: |Trim(mention)| <= i < |mention| ==> mention[i] == '.'
    ensures Trim(mention) != "" ==> Trim(mention)[|Trim(mention)| - 1] != '.'
  {
    if mention != "" && mention[|mention| - 1] == '.' {
      TrimsStops(mention[..|mention| - 1]);
    }
  }

  predicate AllStops(s: string) {
    forall i :: 0 <= i < |s| ==> s[i] == '.'
  }

  /** Whatever full stops end a mention, it refers to the name in front of them. */
  lemma TrimmedName(name: string, stops: string)
    requires name != "" && name[|name| - 1] != '.' && AllStops(stops)
    ensures Trim(name + stops) == name
  {
    var mention := name + stops;
    var trimmed := Trim(mention);
    TrimsStops(mention);
    assert mention[|name| - 1] == name[|name| - 1];
    assert forall i :: |name| <= i < |mention| ==> mention[i] == stops[i - |name|];
    assert |trimmed| == |name|;
    assert mention[..|name|] == name;
  }

  /** The licence text behind a name or its alias; `None` where the lookup raises. */
  function CommonLicense(library: Library, name: string): Option<Text> {
    if name in library then Some(library[name])
    else if name in ALIASES && ALIASES[name] in library then Some(library[ALIASES[name]])
    else None
  }

  predicate Mentions(t: Text, name: string) {
    exists m <- t.mentions :: Trim(m) == name
  }

  ghost function SumOf(m: Notices, keys: set<Destination>): nat
    requires keys <= m.Keys
  {
    if keys == {} then 0 else var d :| d in keys; |m[d].octets| + SumOf(m, keys - {d})
  }

  ghost function Sum(m: Notices): nat {
    SumOf(m, m.Keys)
  }

  /** Every size is positive and bounded, and together they stay within the budget. */
  ghost predicate Bounded(m: Notices) {
    && (forall d <- m :: 0 < |m[d].octets| <= MAX_FILE)
    && Sum(m) <= MAX_TOTAL
  }

  /** Entries below `common/` are what the library holds under their name. */
  ghost predicate Genuine(library: Library, m: Notices) {
    forall d <- m :: d.Common? ==> CommonLicense(library, d.name) == Some(m[d])
  }

  predicate Covers(m: Notices, t: Text) {
    forall mention <- t.mentions :: Common(Trim(mention)) in m
  }

  ghost predicate Closed(m: Notices) {
    forall d <- m :: Covers(m, m[d])
  }

  ghost predicate Submap(a: Notices, b: Notices) {
    forall d <- a :: d in b && a[d] == b[d]
  }

  /** A complete notice collection. */
  ghost predicate Complete(library: Library, m: Notices) {
    Bounded(m) && Genuine(library, m) && Closed(m)
  }

  /** `chain` follows references: its first name is mentioned by `t`, each further one by the licence before it. */
  ghost predicate Follows(library: Library, t: Text, chain: seq<string>)
    decreases |chain|
  {
    chain != [] ==>
      && Mentions(t, chain[0])
      && CommonLicense(library, chain[0]).Some?
      && Follows(library, CommonLicense(library, chain[0]).value, chain[1..])
  }

  /** A chain of references leads from the text to the destination. */
  ghost predicate Reaches(library: Library, t: Text, d: Destination) {
    d.Common? && exists chain :: chain != [] && chain[|chain| - 1] == d.name && Follows(library, t, chain)
  }

  lemma {:induction false} SumOfOneMore(m: Notices, keys: set<Destination>, d: Destination)
    requires keys <= m.Keys && d in m && d !in keys
    ensures SumOf(m, keys + {d}) == |m[d].octets| + SumOf(m, keys)
    decreases |keys|
  {
    var all := keys + {d};
    var q :| q in all && SumOf(m, all) == |m[q].octets| + SumOf(m, all - {q});
    if q == d {
      assert all - {q} == keys;
    } else {
      assert all - {q} == (keys - {q}) + {d};
      SumOfOneMore(m, keys - {q}, d);
      assert keys == (keys - {q}) + {q};
      SumOfOneMore(m, keys - {q}, q);
    }
  }

  lemma {:induction false} SumOfSame(a: Notices, b: Notices, keys: set<Destination>)
    requires keys <= a.Keys && keys <= b.Keys && forall d <- keys :: a[d] == b[d]
    ensures SumOf(a, keys) == SumOf(b, keys)
    decreases |keys|
  {
    if d :| d in keys {
      assert keys == (keys - {d}) + {d};
      SumOfSame(a, b, keys - {d});
      SumOfOneMore(a, keys - {d}, d);
      SumOfOneMore(b, keys - {d}, d);
    }
  }

  lemma {:induction false} SumOfMonotone(m: Notices, some: set<Destination>, all: set<Destination>)
    requires some <= all <= m.Keys
    ensures SumOf(m, some) <= SumOf(m, all)
    decreases |all - some|
  {
    if d :| d in all && d !in some {
      SumOfOneMore(m, some, d);
      SumOfMonotone(m, some + {d}, all);
    } else {
      assert some == all;
    }
  }

  lemma SumOfSubmap(a: Notices, b: Notices)
    requires Submap(a, b)
    ensures Sum(a) <= Sum(b)
  {
    SumOfSame(a, b, a.Keys);
    SumOfMonotone(b, a.Keys, b.Keys);
  }

  lemma SumAfterAdding(m: Notices, d: Destination, t: Text)
    requires d !in m
    ensures Sum(m[d := t]) == Sum(m) + |t.octets|
  {
    var more := m[d := t];
    assert more.Keys == m.Keys + {d};
    SumOfSame(m, more, m.Keys);
    SumOfOneMore(more, m.Keys, d);
  }

  class Collector {
    const library: Library
    var notices: Notices
    var total: nat

    ghost predicate Valid()
      reads this
    {
      Bounded(notices) && Genuine(library, notices) && total == Sum(notices)
    }

    constructor (licenses: Library)
      ensures Valid() && notices == map[] && library == licenses
    {
      library, notices, total := licenses, map[], 0;
    }

    /** Copy a notice unless it is there already, then everything that its text refers to. */
    method CopyNotice(source: Text, destination: Destination) returns (ok: bool)
      requires Valid()
      requires destination.Common? ==> CommonLicense(library, destination.name) == Some(source)
      modifies this
      ensures Valid() && total >= old(total)
      ensures Submap(old(notices), notices)
      // What is new covers its own references ...
      ensures ok ==> destination in notices
      ensures ok && destination !in old(notices) ==> notices[destination] == source
      ensures ok ==> AddedCovered(old(notices), notices)
      ensures destination in old(notices) ==> notices == old(notices)
      // ... and was referred to.
      ensures AddedReached(library, source, old(notices) + map[destination := source], notices)
      // Every complete collection that contains the notice contains all of the copies, and lets the copying succeed.
      ensures Unavoidable(library, old(notices), destination, source, ok, notices)
      decreases MAX_TOTAL - total, 0
    {
      if destination in notices {
        return true;
      }
      var size := |source.octets|;
      CompleteHasRoom(library, notices, destination, source);
      if !(0 < size <= MAX_FILE) || total + size > MAX_TOTAL {
        return false;
      }
      notices := notices[destination := source];
      total := total + size;
      ok := CopyMentions(source, notices);
      MentionsSuffice(library, old(notices), destination, source, ok, notices);
    }

    /** The loop over the references of a notice that has just been copied. */
    method CopyMentions(source: Text, ghost copied: Notices) returns (ok: bool)
      requires Valid() && notices == copied
      modifies this
      ensures Valid() && total >= old(total)
      ensures Submap(copied, notices)
      ensures ok ==> Covers(notices, source)
      ensures ok ==> AddedCovered(copied, notices)
      ensures AddedReached(library, source, copied, notices)
      ensures Contained(library, source, copied, notices)
      ensures !ok ==> Hopeless(library, source, copied)
      decreases MAX_TOTAL - total, 1
    {
      for i := 0 to |source.mentions|
        invariant Valid() && total >= old(total)
        invariant Submap(copied, notices)
        invariant CoversFirst(notices, source, i)
        invariant AddedCovered(copied, notices)
        invariant AddedReached(library, source, copied, notices)
        invariant Contained(library, source, copied, notices)
      {
        var mention := source.mentions[i];
        var license := CommonLicense(library, Trim(mention));
        if license.None? {
          NoSuchLicense(library, source, copied, mention);
          return false;
        }
        ghost var before := notices;
        ok := CopyNotice(license.value, Common(Trim(mention)));
        OneMention(library, source, copied, before, mention, ok, notices);
        CoverOneMore(source, i, before, notices);
        if !ok {
          return;
        }
      }
      ok := true;
      CoversFirstAll(notices, source);
    }
  }

  predicate CoversFirst(m: Notices, t: Text, n: nat)
    requires n <= |t.mentions|
  {
    forall j :: 0 <= j < n ==> Common(Trim(t.mentions[j])) in m
  }

  lemma CoverOneMore(t: Text, n: nat, before: Notices, after: Notices)
    requires n < |t.mentions| && CoversFirst(before, t, n) && Submap(before, after)
    ensures Common(Trim(t.mentions[n])) in after ==> CoversFirst(after, t, n + 1)
  {}

  lemma CoversFirstAll(m: Notices, t: Text)
    requires CoversFirst(m, t, |t.mentions|)
    ensures Covers(m, t)
  {}

  ghost predicate AddedCovered(before: Notices, after: Notices) {
    forall d <- after :: d !in before ==> Covers(after, after[d])
  }

  ghost predicate AddedReached(library: Library, source: Text, before: Notices, after: Notices) {
    forall d <- after :: d !in before ==> Reaches(library, source, d)
  }

  /** Every complete collection around `base` that covers the source contains the result. */
  ghost predicate Contained(library: Library, source: Text, base: Notices, result: Notices) {
    forall m: Notices :: Complete(library, m) && Submap(base, m) && Covers(m, source) ==> Submap(result, m)
  }

  /** There is no complete collection around `base` that covers the source. */
  ghost predicate Hopeless(library: Library, source: Text, base: Notices) {
    forall m: Notices :: Complete(library, m) && Submap(base, m) ==> !Covers(m, source)
  }

  ghost predicate Unavoidable(library: Library, before: Notices, d: Destination, t: Text, ok: bool, after: Notices) {
    forall m: Notices ::
      Complete(library, m) && Submap(before, m) && d in m && (d !in before ==> m[d] == t) ==> ok && Submap(after, m)
  }

  lemma MentionsSuffice(library: Library, before: Notices, d: Destination, t: Text, ok: bool, after: Notices)
    requires d !in before
    requires Contained(library, t, before[d := t], after)
    requires !ok ==> Hopeless(library, t, before[d := t])
    ensures Unavoidable(library, before, d, t, ok, after)
  {
    forall m: Notices | Complete(library, m) && Submap(before, m) && d in m && m[d] == t
      ensures ok && Submap(after, m)
    {
      assert Submap(before[d := t], m) && Covers(m, t);
    }
  }

  lemma NoSuchLicense(library: Library, source: Text, base: Notices, mention: string)
    requires mention in source.mentions && CommonLicense(library, Trim(mention)).None?
    ensures Hopeless(library, source, base)
  {
    forall m: Notices | Complete(library, m)
      ensures !Covers(m, source)
    {
      assert Common(Trim(mention)) !in m;
    }
  }

  /** Copying what one reference leads to keeps what the loop has established. */
  lemma OneMention(library: Library, source: Text, base: Notices, before: Notices, mention: string, ok: bool,
                   after: Notices)
    requires mention in source.mentions && CommonLicense(library, Trim(mention)).Some?
    requires var license := CommonLicense(library, Trim(mention)).value;
             && AddedReached(library, license, before + map[Common(Trim(mention)) := license], after)
             && Unavoidable(library, before, Common(Trim(mention)), license, ok, after)
    requires Submap(base, before) && Submap(before, after)
    requires ok ==> AddedCovered(before, after)
    requires AddedCovered(base, before) && AddedReached(library, source, base, before)
    requires Contained(library, source, base, before)
    ensures ok ==> AddedCovered(base, after)
    ensures AddedReached(library, source, base, after)
    ensures Contained(library, source, base, after)
    ensures !ok ==> Hopeless(library, source, base)
  {
    var name := Trim(mention);
    forall d | d in after && d !in before
      ensures Reaches(library, source, d)
    {
      ReachesFurther(library, source, name, d);
    }
    forall m: Notices | Complete(library, m) && Submap(base, m) && Covers(m, source)
      ensures ok && Submap(after, m)
    {
      assert Common(name) in m;
    }
  }

  lemma CompleteHasRoom(library: Library, notices: Notices, d: Destination, t: Text)
    requires d !in notices
    ensures Sum(notices[d := t]) == Sum(notices) + |t.octets|
    ensures forall m: Notices :: Complete(library, m) && Submap(notices, m) && d in m && m[d] == t ==>
              0 < |t.octets| <= MAX_FILE && Sum(notices) + |t.octets| <= MAX_TOTAL && Covers(m, t)
  {
    SumAfterAdding(notices, d, t);
    forall m: Notices | Complete(library, m) && Submap(notices, m) && d in m && m[d] == t
      ensures Sum(notices) + |t.octets| <= MAX_TOTAL
    {
      SumOfSubmap(notices[d := t], m);
    }
  }

  /** A reference, followed by what the licence behind it reaches. */
  lemma ReachesFurther(library: Library, t: Text, name: string, d: Destination)
    requires Mentions(t, name) && CommonLicense(library, name).Some?
    requires d == Common(name) || Reaches(library, CommonLicense(library, name).value, d)
    ensures Reaches(library, t, d)
  {
    if d == Common(name) {
      FollowsOne(library, t, name, []);
    } else {
      var license := CommonLicense(library, name).value;
      var chain :| chain != [] && chain[|chain| - 1] == d.name && Follows(library, license, chain);
      FollowsOne(library, t, name, chain);
      assert ([name] + chain)[|chain|] == d.name;
    }
  }

  lemma FollowsOne(library: Library, t: Text, name: string, chain: seq<string>)
    requires Mentions(t, name) && CommonLicense(library, name).Some?
    requires Follows(library, CommonLicense(library, name).value, chain)
    ensures Follows(library, t, [name] + chain)
  {
    assert ([name] + chain)[1..] == chain;
  }

  /** A text that refers to one licence, at the end of a sentence or not: the notices are that text and the licence,
      under its own name, and nothing else. */
  lemma OneReference(library: Library, path: string, t: Text, name: string, stops: string, notices: Notices)
    requires name != "" && name[|name| - 1] != '.' && AllStops(stops)
    requires t.mentions == [name + stops] && name in library && library[name].mentions == []
    requires 0 < |t.octets| <= 16 * 1024 * 1024 && 0 < |library[name].octets| <= 16 * 1024 * 1024
    requires Complete(library, notices) && Least(library, Firsts([(path, t)]), notices)
    requires Submap(Firsts([(path, t)]), notices)
    ensures notices == map[Chosen(path) := t, Common(name) := library[name]]
  {
    var m: Notices := map[Chosen(path) := t, Common(name) := library[name]];
    TrimmedName(name, stops);
    FirstOfOne(path, t);
    PairIsComplete(library, path, t, name);
    assert t.mentions[0] in t.mentions && Chosen(path) in notices && Covers(notices, t);
    assert Common(name) in notices && notices[Common(name)] == library[name];
    assert Submap(notices, m) && Submap(m, notices);
    assert notices.Keys == m.Keys;
  }

  lemma FirstOfOne(path: string, t: Text)
    ensures Firsts([(path, t)]) == map[Chosen(path) := t]
  {
    assert [(path, t)][..0] == [] && Firsts([]) == map[];
  }

  lemma PairIsComplete(library: Library, path: string, t: Text, name: string)
    requires name in library && library[name].mentions == []
    requires forall mention <- t.mentions :: Trim(mention) == name
    requires 0 < |t.octets| <= MAX_FILE && 0 < |library[name].octets| <= MAX_FILE
    ensures Complete(library, map[Chosen(path) := t, Common(name) := library[name]])
  {
    var none: Notices := map[];
    var one := none[Chosen(path) := t];
    var two := one[Common(name) := library[name]];
    assert Sum(none) == 0;
    SumAfterAdding(none, Chosen(path), t);
    SumAfterAdding(one, Common(name), library[name]);
    assert two == map[Chosen(path) := t, Common(name) := library[name]];
  }

  /** A licence is looked up under its own name first, and an SPDX-style name stands for the one that the directory has.
      */
  lemma AliasesStandIn(library: Library)
    ensures forall name <- library :: CommonLicense(library, name) == Some(library[name])
    ensures "GPL-2.0" !in library && "GPL-2" in library ==> CommonLicense(library, "GPL-2.0") == Some(library["GPL-2"])
    ensures "GPL-3.0" !in library && "GPL-3" in library ==> CommonLicense(library, "GPL-3.0") == Some(library["GPL-3"])
    ensures "LGPL-2.0" !in library && "LGPL-2" in library ==>
      CommonLicense(library, "LGPL-2.0") == Some(library["LGPL-2"])
    ensures "LGPL-3.0" !in library && "LGPL-3" in library ==>
      CommonLicense(library, "LGPL-3.0") == Some(library["LGPL-3"])
    ensures forall name :: name !in library && name !in {"GPL-2.0", "GPL-3.0", "LGPL-2.0", "LGPL-3.0"} ==>
      CommonLicense(library, name) == None
  {}

  /** An empty notice, or one above 16 MiB, is in no complete collection. */
  lemma SizeRefused(library: Library, m: Notices, d: Destination)
    requires d in m && (m[d].octets == [] || |m[d].octets| > 16 * 1024 * 1024)
    ensures !Complete(library, m)
  {}

  /** The first text given for every place. */
  function Firsts(seeds: seq<(string, Text)>): Notices {
    if seeds == [] then map[]
    else
      var last := seeds[|seeds| - 1];
      WithSeed(Firsts(seeds[..|seeds| - 1]), last.0, last.1)
  }

  lemma {:induction false} FirstsAreSeeds(seeds: seq<(string, Text)>)
    ensures forall d <- Firsts(seeds) :: d.Chosen? && (d.path, Firsts(seeds)[d]) in seeds
    ensures forall s <- seeds :: Chosen(s.0) in Firsts(seeds)
  {
    if seeds != [] {
      var rest := seeds[..|seeds| - 1];
      assert seeds == rest + [seeds[|seeds| - 1]];
      FirstsAreSeeds(rest);
    }
  }

  /** The notice is one of the seeds, or a chain of references leads to it from one. */
  ghost predicate Justified(library: Library, seeds: Notices, d: Destination) {
    d in seeds || exists s <- seeds :: Reaches(library, seeds[s], d)
  }

  /** Copy the notices of all selected components. On success the collection is the least complete one that holds the
      seeds; it succeeds whenever there is a complete one at all. */
  method CollectNotices(library: Library, seeds: seq<(string, Text)>) returns (ok: bool, notices: Notices, total: nat)
    ensures ok <==> exists m: Notices :: Complete(library, m) && Submap(Firsts(seeds), m)
    ensures ok ==> Complete(library, notices) && Submap(Firsts(seeds), notices)
    ensures ok ==> total == Sum(notices) <= 64 * 1024 * 1024
    ensures ok ==> Least(library, Firsts(seeds), notices)
    ensures ok ==> forall d <- notices :: Justified(library, Firsts(seeds), d)
  {
    var c := new Collector(library);
    assert seeds[..0] == [];
    for i := 0 to |seeds|
      invariant c.library == library && c.Valid() && Closed(c.notices)
      invariant Submap(Firsts(seeds[..i]), c.notices)
      invariant SeededBy(library, Firsts(seeds[..i]), c.notices)
      invariant Least(library, Firsts(seeds[..i]), c.notices)
      invariant fresh(c)
    {
      ghost var before := c.notices;
      var path, text := seeds[i].0, seeds[i].1;
      ok := c.CopyNotice(text, Chosen(path));
      FirstsStep(seeds, i);
      OneSeed(library, Firsts(seeds[..i]), before, path, text, ok, c.notices);
      if !ok {
        FirstsPrefix(seeds, i + 1);
        return ok, c.notices, c.total;
      }
    }
    assert seeds[..|seeds|] == seeds;
    assert Complete(library, c.notices) && Submap(Firsts(seeds), c.notices);
    return true, c.notices, c.total;
  }

  function WithSeed(earlier: Notices, path: string, t: Text): Notices {
    if Chosen(path) in earlier then earlier else earlier[Chosen(path) := t]
  }

  /** The chosen places are those of the seeds, and every copy is justified. */
  ghost predicate SeededBy(library: Library, seeds: Notices, notices: Notices) {
    && (forall d <- notices :: d.Chosen? ==> d in seeds)
    && (forall d <- notices :: Justified(library, seeds, d))
  }

  ghost predicate Least(library: Library, seeds: Notices, notices: Notices) {
    forall m: Notices :: Complete(library, m) && Submap(seeds, m) ==> Submap(notices, m)
  }

  lemma OneSeed(library: Library, seeds: Notices, before: Notices, path: string, t: Text, ok: bool, after: Notices)
    requires Chosen(path) in seeds ==> Chosen(path) in before
    requires Closed(before) && Submap(seeds, before) && Submap(before, after)
    requires SeededBy(library, seeds, before) && Least(library, seeds, before)
    requires ok ==> AddedCovered(before, after)
    requires ok ==> Chosen(path) in after && (Chosen(path) !in before ==> after[Chosen(path)] == t)
    requires AddedReached(library, t, before + map[Chosen(path) := t], after)
    requires Unavoidable(library, before, Chosen(path), t, ok, after)
    requires Chosen(path) in before ==> after == before
    ensures var more := WithSeed(seeds, path, t);
            && Submap(seeds, more)
            && Least(library, more, after)
            && (ok ==> Closed(after) && Submap(more, after) && SeededBy(library, more, after))
            && (!ok ==> forall m: Notices :: !(Complete(library, m) && Submap(more, m)))
  {
    var more := WithSeed(seeds, path, t);
    assert Chosen(path) in before ==> Chosen(path) in seeds;
    forall m: Notices | Complete(library, m) && Submap(more, m)
      ensures ok && Submap(after, m)
    {
      assert Submap(seeds, m) && Chosen(path) in more;
    }
    if ok && Chosen(path) !in before {
      SeedJustifies(library, seeds, before, path, t, after);
    }
  }

  lemma SeedJustifies(library: Library, seeds: Notices, before: Notices, path: string, t: Text, after: Notices)
    requires SeededBy(library, seeds, before)
    requires Chosen(path) !in before && Chosen(path) !in seeds
    requires AddedReached(library, t, before + map[Chosen(path) := t], after)
    ensures SeededBy(library, seeds[Chosen(path) := t], after)
  {
    var more := seeds[Chosen(path) := t];
    assert Submap(seeds, more);
    forall d | d in after
      ensures d.Chosen? ==> d in more
      ensures Justified(library, more, d)
    {
      if d in before {
        JustifiedByMore(library, seeds, more, d);
      } else if d != Chosen(path) {
        assert Reaches(library, more[Chosen(path)], d);
      }
    }
  }

  lemma JustifiedByMore(library: Library, seeds: Notices, more: Notices, d: Destination)
    requires Submap(seeds, more) && Justified(library, seeds, d)
    ensures Justified(library, more, d)
  {
    if d !in seeds {
      var s :| s in seeds && Reaches(library, seeds[s], d);
      assert Reaches(library, more[s], d);
    }
  }

  lemma FirstsStep(seeds: seq<(string, Text)>, i: nat)
    requires i < |seeds|
    ensures Firsts(seeds[..i + 1]) == WithSeed(Firsts(seeds[..i]), seeds[i].0, seeds[i].1)
  {
    assert seeds[..i + 1][..i] == seeds[..i];
  }

  lemma {:induction false} FirstsPrefix(seeds: seq<(string, Text)>, n: nat)
    requires n <= |seeds|
    ensures Submap(Firsts(seeds[..n]), Firsts(seeds))
    decreases |seeds| - n
  {
    if n == |seeds| {
      assert seeds[..n] == seeds;
    } else {
      FirstsStep(seeds, n);
      FirstsPrefix(seeds, n + 1);
    }
  }
}
