/** The bounded reader of DT_NEEDED names in little-endian ELF64 files
    ("Dynamic Section", chapter 5 of the System V gABI). */
module ElfDynamic {
  import opened Bytes
  import opened Wrappers

  const MAX_FILE := 128 * 1024 * 1024
  const MAX_TABLE := 8 * 1024 * 1024
  const MAX_HEADERS := 1024
  const HEADER_SIZE := 56
  const MAGIC: seq<byte> := [0x7f, 0x45, 0x4c, 0x46]

  const PT_LOAD := 1
  const PT_DYNAMIC := 2
  const DT_NULL := 0
  const DT_NEEDED := 1
  const DT_STRTAB := 5
  const DT_STRSZ := 10

  datatype Segment = Segment(kind: nat, file: nat, address: nat, extent: nat)

  datatype Tag = Tag(key: nat, value: nat)

  predicate IsElf(data: seq<byte>) {
    MAGIC <= data
  }

  /** The unsigned field of `width` octets at `at`. */
  function Field(data: seq<byte>, at: nat, width: nat): nat
    requires at + width <= |data|
  {
    LittleEndian(data[at..at + width])
  }

  function HeaderOffset(data: seq<byte>): nat
    requires |data| >= 64
  {
    Field(data, 32, 8)
  }

  function HeaderCount(data: seq<byte>): nat
    requires |data| >= 64
  {
    Field(data, 56, 2)
  }

  predicate Supported(data: seq<byte>) {
    64 <= |data| <= MAX_FILE && data[4] == 2 && data[5] == 1
  }

  predicate HeadersInside(data: seq<byte>)
    requires Supported(data)
  {
    && Field(data, 54, 2) == HEADER_SIZE
    && HeaderCount(data) <= MAX_HEADERS
    && HeaderOffset(data) + HeaderCount(data) * HEADER_SIZE <= |data|
  }

  predicate HasHeaders(data: seq<byte>) {
    Supported(data) && HeadersInside(data)
  }

  function SegmentAt(data: seq<byte>, i: nat): Segment
    requires HasHeaders(data) && i < HeaderCount(data)
  {
    var at := HeaderOffset(data) + i * HEADER_SIZE;
    Segment(Field(data, at, 4), Field(data, at + 8, 8), Field(data, at + 16, 8), Field(data, at + 32, 8))
  }

  /** The program headers, in file order. */
  function Segments(data: seq<byte>): seq<Segment>
    requires HasHeaders(data)
  {
    seq(HeaderCount(data), i requires 0 <= i < HeaderCount(data) => SegmentAt(data, i))
  }

  predicate Fits(s: Segment, size: nat) {
    s.file + s.extent <= size && (s.kind == PT_DYNAMIC ==> s.extent % 16 == 0)
  }

  predicate AllFit(segments: seq<Segment>, size: nat) {
    forall s <- segments :: Fits(s, size)
  }

  /** The dynamic entries from `at` on, up to the first DT_NULL. */
  function Entries(data: seq<byte>, at: nat, limit: nat): seq<Tag>
    requires limit <= |data|
    decreases limit - at
  {
    if at + 16 > limit || Field(data, at, 8) == DT_NULL then []
    else [Tag(Field(data, at, 8), Field(data, at + 8, 8))] + Entries(data, at + 16, limit)
  }

  /** The dynamic entries that a segment contributes. */
  function EntriesOf(data: seq<byte>, s: Segment): seq<Tag>
    requires Fits(s, |data|)
  {
    if s.kind == PT_DYNAMIC then Entries(data, s.file, s.file + s.extent) else []
  }

  /** The dynamic entries of the segments, in header order. */
  function Tags(data: seq<byte>, segments: seq<Segment>): seq<Tag>
    requires AllFit(segments, |data|)
  {
    if segments == [] then []
    else
      var last := segments[|segments| - 1];
      assert last in segments && Fits(last, |data|);
      Tags(data, segments[..|segments| - 1]) + EntriesOf(data, last)
  }

  function ValueOf(tag: Tag, key: nat): seq<nat> {
    if tag.key == key then [tag.value] else []
  }

  /** The values of the entries with that key, in order. */
  function Values(tags: seq<Tag>, key: nat): seq<nat> {
    if tags == [] then [] else Values(tags[..|tags| - 1], key) + ValueOf(tags[|tags| - 1], key)
  }

  /** A loadable segment maps the whole address range. */
  predicate Maps(s: Segment, address: nat, length: nat) {
    s.kind == PT_LOAD && s.address <= address && address + length <= s.address + s.extent
  }

  /** Among the segments, only number `i` maps the range. */
  ghost predicate MapsAlone(segments: seq<Segment>, i: nat, address: nat, length: nat) {
    && i < |segments|
    && Maps(segments[i], address, length)
    && forall j :: 0 <= j < |segments| && Maps(segments[j], address, length) ==> j == i
  }

  ghost predicate Readable(data: seq<byte>) {
    HasHeaders(data) && AllFit(Segments(data), |data|)
  }

  /** The one string table: one address, one bounded length, and exactly one loadable segment that maps both. */
  ghost predicate StringTable(segments: seq<Segment>, tags: seq<Tag>, start: nat, length: nat) {
    && length <= MAX_TABLE
    && Values(tags, DT_STRSZ) == [length]
    && |Values(tags, DT_STRTAB)| == 1
    && var address := Values(tags, DT_STRTAB)[0];
       exists i: nat :: MapsAlone(segments, i, address, length)
                   && start == segments[i].file + (address - segments[i].address)
  }

  /** `name` stands at `at`, in ASCII and terminated by NUL in front of `limit`. */
  predicate TextAt(data: seq<byte>, at: nat, limit: nat, name: string)
    requires limit <= |data|
  {
    && at + |name| < limit
    && data[at + |name|] == 0
    && forall j :: 0 <= j < |name| ==> 0 < name[j] as int < 128 && data[at + j] == name[j] as int
  }

  /** `name` stands at `offset` of the string table. */
  predicate NameAt(data: seq<byte>, start: nat, length: nat, offset: nat, name: string) {
    start + length <= |data| && offset < length && TextAt(data, start + offset, start + length, name)
  }

  ghost predicate NamesAt(data: seq<byte>, start: nat, length: nat, offsets: seq<nat>, names: seq<string>) {
    |names| == |offsets| && forall k :: 0 <= k < |names| ==> NameAt(data, start, length, offsets[k], names[k])
  }

  /** The names that the tags ask for, found in the string table. */
  ghost predicate Named(data: seq<byte>, segments: seq<Segment>, tags: seq<Tag>, names: seq<string>) {
    var offsets := Values(tags, DT_NEEDED);
    if offsets == [] then names == []
    else exists start, length ::
      StringTable(segments, tags, start, length) && NamesAt(data, start, length, offsets, names)
  }

  /** The file is readable and `names` are its needed libraries, in order; a file without the magic needs none. */
  ghost predicate Lists(data: seq<byte>, names: seq<string>) {
    if !IsElf(data) then names == []
    else Readable(data) && Named(data, Segments(data), Tags(data, Segments(data)), names)
  }

  /** The octets that the reader takes from a file. */
  function Taken(file: seq<byte>): seq<byte> {
    if |file| <= MAX_FILE + 1 then file else file[..MAX_FILE + 1]
  }

  /** The needed names, or `None` where the reader raises: then the file lists nothing. */
  method Needed(file: seq<byte>) returns (r: Option<seq<string>>)
    ensures r.Some? ==> Lists(Taken(file), r.value)
    ensures r.None? ==> forall names :: !Lists(Taken(file), names)
  {
    var data := Taken(file);
    if !IsElf(data) {
      return Some([]);
    }
    if |data| > MAX_FILE || |data| < 64 || data[4..6] != [2, 1] {
      assert |data| >= 64 ==> data[4..6] == [data[4], data[5]];
      return None;
    }
    assert data[4..6] == [data[4], data[5]];
    var offset, size, count := Field(data, 32, 8), Field(data, 54, 2), Field(data, 56, 2);
    if size != HEADER_SIZE || count > MAX_HEADERS || offset + count * size > |data| {
      return None;
    }
    var segments := Segments(data);
    var tags;
    r, tags := ReadTags(data, segments);
    if r.Some? {
      r := ReadNeeded(data, segments, tags);
    }
  }

  /** The header loop: every segment lies inside the file, and the dynamic ones yield their entries. */
  method ReadTags(data: seq<byte>, segments: seq<Segment>) returns (r: Option<seq<string>>, tags: seq<Tag>)
    ensures r.Some? <==> AllFit(segments, |data|)
    ensures r.Some? ==> tags == Tags(data, segments)
  {
    r, tags := Some([]), [];
    assert segments[..0] == [];
    for i := 0 to |segments|
      invariant r.Some?
      invariant AllFit(segments[..i], |data|)
      invariant tags == Tags(data, segments[..i])
    {
      var s := segments[i];
      if s.file + s.extent > |data| || (s.kind == PT_DYNAMIC && s.extent % 16 != 0) {
        assert !Fits(s, |data|) && s in segments;
        return None, [];
      }
      TagsOneMore(data, segments, i);
      if s.kind == PT_DYNAMIC {
        var entries := ReadEntries(data, s.file, s.extent);
        tags := tags + entries;
      } else {
        assert tags + [] == tags;
      }
    }
    assert segments[..|segments|] == segments;
  }

  lemma TagsOneMore(data: seq<byte>, segments: seq<Segment>, i: nat)
    requires i < |segments| && AllFit(segments[..i], |data|) && Fits(segments[i], |data|)
    ensures AllFit(segments[..i + 1], |data|)
    ensures Tags(data, segments[..i + 1]) == Tags(data, segments[..i]) + EntriesOf(data, segments[i])
  {
    AllFitOneMore(segments, i, |data|);
    assert segments[..i + 1][..i] == segments[..i];
  }

  lemma AllFitOneMore(segments: seq<Segment>, i: nat, size: nat)
    requires i < |segments| && AllFit(segments[..i], size) && Fits(segments[i], size)
    ensures AllFit(segments[..i + 1], size)
  {
    assert segments[..i + 1] == segments[..i] + [segments[i]];
  }

  /** Locate the string table and read the needed names from it. */
  method ReadNeeded(data: seq<byte>, segments: seq<Segment>, tags: seq<Tag>) returns (r: Option<seq<string>>)
    requires AllFit(segments, |data|)
    ensures r.Some? ==> Named(data, segments, tags, r.value)
    ensures r.None? ==> forall names :: !Named(data, segments, tags, names)
  {
    var names := Select(tags, DT_NEEDED);
    if names == [] {
      return Some([]);
    }
    var addresses := Select(tags, DT_STRTAB);
    var lengths := Select(tags, DT_STRSZ);
    if |addresses| != 1 || |lengths| != 1 || lengths[0] > MAX_TABLE {
      return None;
    }
    var address, length := addresses[0], lengths[0];
    var tables := MappedTables(segments, address, length);
    if |tables| != 1 {
      NoUniqueTable(segments, address, length, tables);
      return None;
    }
    var i := tables[0];
    assert MapsAlone(segments, i, address, length) && Fits(segments[i], |data|);
    var start := segments[i].file + (address - segments[i].address);
    assert StringTable(segments, tags, start, length);
    r := ReadNames(data, start, length, names);
    if r.None? {
      forall other, s, l | StringTable(segments, tags, s, l) && NamesAt(data, s, l, names, other)
        ensures false
      {
        OneTable(segments, tags, start, length, s, l);
      }
    }
  }

  method ReadEntries(data: seq<byte>, file: nat, extent: nat) returns (tags: seq<Tag>)
    requires file + extent <= |data| && extent % 16 == 0
    ensures tags == Entries(data, file, file + extent)
  {
    tags := [];
    ghost var limit := file + extent;
    var pos := file;
    while pos < file + extent
      invariant file <= pos <= limit && (limit - pos) % 16 == 0
      invariant Entries(data, file, limit) == tags + Entries(data, pos, limit)
    {
      var key, value := Field(data, pos, 8), Field(data, pos + 8, 8);
      if key == DT_NULL {
        break;
      }
      Associative(tags, [Tag(key, value)], Entries(data, pos + 16, limit));
      tags := tags + [Tag(key, value)];
      pos := pos + 16;
    }
    assert tags + [] == tags;
  }

  method Select(tags: seq<Tag>, key: nat) returns (values: seq<nat>)
    ensures values == Values(tags, key)
  {
    values := [];
    assert tags[..0] == [];
    for i := 0 to |tags|
      invariant values == Values(tags[..i], key)
    {
      assert tags[..i + 1][..i] == tags[..i];
      if tags[i].key == key {
        values := values + [tags[i].value];
      } else {
        assert values + [] == values;
      }
    }
    assert tags[..|tags|] == tags;
  }

  /** The loadable segments that map the range, by header index. */
  method MappedTables(segments: seq<Segment>, address: nat, length: nat) returns (tables: seq<nat>)
    ensures MappingIndices(segments, |segments|, address, length, tables)
  {
    tables := [];
    for i := 0 to |segments|
      invariant MappingIndices(segments, i, address, length, tables)
    {
      if Maps(segments[i], address, length) {
        ghost var earlier := tables;
        tables := tables + [i];
        assert tables[|earlier|] == i && forall j: nat :: j in earlier ==> j in tables;
      }
    }
  }

  /** The ascending numbers of those among the first `n` segments that map the range. */
  ghost predicate MappingIndices(segments: seq<Segment>, n: nat, address: nat, length: nat, tables: seq<nat>)
    requires n <= |segments|
  {
    && (forall k :: 0 <= k < |tables| ==> tables[k] < n && Maps(segments[tables[k]], address, length))
    && (forall i: nat :: i < n && Maps(segments[i], address, length) ==> i in tables)
    && forall a, b :: 0 <= a < b < |tables| ==> tables[a] < tables[b]
  }

  /** The name loop. */
  method ReadNames(data: seq<byte>, start: nat, length: nat, offsets: seq<nat>)
    returns (r: Option<seq<string>>)
    requires start + length <= |data|
    ensures r.Some? ==> NamesAt(data, start, length, offsets, r.value)
    ensures r.None? ==> forall names :: !NamesAt(data, start, length, offsets, names)
  {
    var result: seq<string> := [];
    for k := 0 to |offsets|
      invariant NamesAt(data, start, length, offsets[..k], result)
    {
      var name := ReadName(data, start, length, offsets[k]);
      if name.None? {
        forall names | NamesAt(data, start, length, offsets, names)
          ensures false
        {}
        return None;
      }
      result := result + [name.value];
    }
    assert offsets[..|offsets|] == offsets;
    r := Some(result);
  }

  /** Find the terminator inside the table, then decode what stands before it. */
  method ReadName(data: seq<byte>, start: nat, length: nat, offset: nat) returns (r: Option<string>)
    requires start + length <= |data|
    ensures r.Some? ==> NameAt(data, start, length, offset, r.value)
    ensures r.None? ==> forall name :: !NameAt(data, start, length, offset, name)
  {
    if offset >= length {
      return None;
    }
    var at := start + offset;
    var end := at;
    while end < start + length && data[end] != 0
      invariant at <= end <= start + length
      invariant forall p :: at <= p < end ==> data[p] != 0
    {
      end := end + 1;
    }
    if end == start + length {
      UnterminatedName(data, start, length, offset);
      return None;
    }
    var name := "";
    while |name| < end - at
      invariant |name| <= end - at
      invariant forall j :: 0 <= j < |name| ==> 0 < name[j] as int < 128 && data[at + j] == name[j] as int
    {
      var octet := data[at + |name|];
      if octet >= 128 {
        NotAsciiName(data, start, length, offset, |name|);
        return None;
      }
      name := name + [octet as char];
    }
    r := Some(name);
  }

  lemma NoUniqueTable(segments: seq<Segment>, address: nat, length: nat, tables: seq<nat>)
    requires MappingIndices(segments, |segments|, address, length, tables) && |tables| != 1
    ensures forall i: nat :: !MapsAlone(segments, i, address, length)
  {
    if |tables| > 1 {
      assert tables[0] < tables[1];
    }
  }

  lemma OneTable(segments: seq<Segment>, tags: seq<Tag>, start: nat, length: nat, otherStart: nat, otherLength: nat)
    requires StringTable(segments, tags, start, length) && StringTable(segments, tags, otherStart, otherLength)
    ensures start == otherStart && length == otherLength
  {
    assert [length][0] == [otherLength][0];
  }

  /** A file lists its names in one way only. */
  lemma ListsOnce(data: seq<byte>, names: seq<string>, others: seq<string>)
    requires Lists(data, names) && Lists(data, others)
    ensures names == others
  {
    if IsElf(data) {
      var segments := Segments(data);
      var tags := Tags(data, segments);
      var offsets := Values(tags, DT_NEEDED);
      if offsets != [] {
        var start, length :|
          StringTable(segments, tags, start, length) && NamesAt(data, start, length, offsets, names);
        var s, l :| StringTable(segments, tags, s, l) && NamesAt(data, s, l, offsets, others);
        OneTable(segments, tags, start, length, s, l);
        forall k | 0 <= k < |names|
          ensures names[k] == others[k]
        {
          NameOnce(data, start, length, offsets[k], names[k], others[k]);
        }
      }
    }
  }

  lemma NameOnce(data: seq<byte>, start: nat, length: nat, offset: nat, name: string, other: string)
    requires NameAt(data, start, length, offset, name) && NameAt(data, start, length, offset, other)
    ensures name == other
  {
    TextHasNoNul(data, start + offset, start + length, name);
    TextHasNoNul(data, start + offset, start + length, other);
    var at := start + offset;
    assert |name| == |other|;
    forall j | 0 <= j < |name|
      ensures name[j] == other[j]
    {
      assert data[at + j] == name[j] as int;
      assert data[at + j] == other[j] as int;
    }
  }

  /** Where a text stands there are only ASCII octets, and a NUL behind them. */
  lemma TextOctets(data: seq<byte>, at: nat, limit: nat, name: string)
    requires limit <= |data|
    ensures TextAt(data, at, limit, name) ==>
              && at + |name| < limit && data[at + |name|] == 0
              && forall p :: at <= p < at + |name| ==> 0 < data[p] < 128
  {
    if TextAt(data, at, limit, name) {
      TextHasNoNul(data, at, limit, name);
    }
  }

  lemma UnterminatedName(data: seq<byte>, start: nat, length: nat, offset: nat)
    requires start + length <= |data| && forall p :: start + offset <= p < start + length ==> data[p] != 0
    ensures forall name :: !NameAt(data, start, length, offset, name)
  {
    forall name
      ensures !NameAt(data, start, length, offset, name)
    {
      TextOctets(data, start + offset, start + length, name);
    }
  }

  lemma NotAsciiName(data: seq<byte>, start: nat, length: nat, offset: nat, n: nat)
    requires start + length <= |data| && offset + n < length && data[start + offset + n] >= 128
    requires forall p :: start + offset <= p < start + offset + n ==> data[p] != 0
    ensures forall name :: !NameAt(data, start, length, offset, name)
  {
    forall name
      ensures !NameAt(data, start, length, offset, name)
    {
      TextOctets(data, start + offset, start + length, name);
    }
  }

  lemma TextHasNoNul(data: seq<byte>, at: nat, limit: nat, name: string)
    requires limit <= |data| && TextAt(data, at, limit, name)
    ensures forall p :: at <= p < at + |name| ==> data[p] == name[p - at] as int && 0 < data[p] < 128
  {
    forall p | at <= p < at + |name|
      ensures data[p] == name[p - at] as int && 0 < data[p] < 128
    {
      var j := p - at;
      assert 0 < name[j] as int < 128 && data[at + j] == name[j] as int;
    }
  }

  /** Entries are read in place, every one up to the first DT_NULL or the end of the segment, and none behind it. */
  lemma {:induction false} EntriesExact(data: seq<byte>, at: nat, limit: nat)
    requires limit <= |data|
    ensures EntriesAre(data, at, limit, Entries(data, at, limit))
    decreases limit - at
  {
    if at + 16 <= limit && Field(data, at, 8) != DT_NULL {
      EntriesExact(data, at + 16, limit);
      var entries, tail := Entries(data, at, limit), Entries(data, at + 16, limit);
      forall k | 0 <= k < |entries|
        ensures EntryAt(data, at + 16 * k, limit, entries[k])
      {
        if k > 0 {
          assert EntryAt(data, (at + 16) + 16 * (k - 1), limit, tail[k - 1]);
        }
      }
    }
  }

  predicate EntryAt(data: seq<byte>, at: nat, limit: nat, tag: Tag)
    requires limit <= |data|
  {
    at + 16 <= limit && Field(data, at, 8) != DT_NULL && tag == Tag(Field(data, at, 8), Field(data, at + 8, 8))
  }

  ghost predicate EntriesAre(data: seq<byte>, at: nat, limit: nat, entries: seq<Tag>)
    requires limit <= |data|
  {
    var end := at + 16 * |entries|;
    && (end + 16 > limit || Field(data, end, 8) == DT_NULL)
    && forall k :: 0 <= k < |entries| ==> EntryAt(data, at + 16 * k, limit, entries[k])
  }
}
