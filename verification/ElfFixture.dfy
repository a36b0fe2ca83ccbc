/** The one-dependency ELF image that the repository's tests write, and the proof that the reader reads it back. */
module ElfFixture {
  import opened Bytes
  import opened ElfDynamic

  predicate IsLibraryName(name: string) {
    forall c <- name :: 0 < c as int < 128
  }

  /** Nothing but the `width` octets at `at` may differ. */
  ghost predicate Elsewhere(data: seq<byte>, packed: seq<byte>, at: nat, width: nat) {
    && |packed| == |data|
    && (forall i {:trigger packed[i]} :: 0 <= i < |data| && !(at <= i < at + width) ==> packed[i] == data[i])
    && forall a: nat, n: nat {:trigger Field(packed, a, n)} ::
         a + n <= |data| && (a + n <= at || at + width <= a) ==> Field(packed, a, n) == Field(data, a, n)
  }

  /** Overwrite one little-endian field in place. */
  method PackInto(data: seq<byte>, at: nat, value: nat, width: nat) returns (packed: seq<byte>)
    requires at + width <= |data| && value < Power256(width)
    ensures |packed| == |data|
    ensures Field(packed, at, width) == value
    ensures Elsewhere(data, packed, at, width)
  {
    packed := data[..at] + LittleBytes(value, width) + data[at + width..];
    LittleEndianOfBytes(value, width);
    assert packed[at..at + width] == LittleBytes(value, width);
    forall a: nat, n: nat | a + n <= |data| && (a + n <= at || at + width <= a)
      ensures Field(packed, a, n) == Field(data, a, n)
    {
      assert packed[a..a + n] == data[a..a + n];
    }
  }

  predicate Header(data: seq<byte>, at: nat, s: Segment) {
    && at + HEADER_SIZE <= |data|
    && Field(data, at, 4) == s.kind
    && Field(data, at + 8, 8) == s.file
    && Field(data, at + 16, 8) == s.address
    && Field(data, at + 32, 8) == s.extent
  }

  predicate Entry(data: seq<byte>, at: nat, t: Tag) {
    && at + 16 <= |data|
    && Field(data, at, 8) == t.key
    && Field(data, at + 8, 8) == t.value
  }

  /** The layout: two program headers at 64, four dynamic entries at 176 and the string table at 240. */
  predicate LaidOut(data: seq<byte>, dependency: string) {
    && |data| == 242 + |dependency|
    && IsElf(data) && data[4] == 2 && data[5] == 1
    && HeadersLaidOut(data)
    && DynamicLaidOut(data, 2 + |dependency|)
    && TextAt(data, 241, |data|, dependency)
  }

  /** A file laid out like this lists exactly its one dependency. */
  lemma LayoutListsDependency(data: seq<byte>, dependency: string)
    requires LaidOut(data, dependency) && 2 + |dependency| <= MAX_TABLE
    ensures Taken(data) == data
    ensures Lists(data, [dependency])
  {
    var load, dyn := Segment(PT_LOAD, 0, 0, |data|), Segment(PT_DYNAMIC, 176, 176, 64);
    SegmentsLaidOut(data, dependency);
    FourEntries(data, 176, Tag(DT_STRTAB, 240), Tag(DT_STRSZ, 2 + |dependency|), Tag(DT_NEEDED, 1));
    ListsOne(data, load, dyn, 240, 2 + |dependency|, 1, dependency);
  }

  /** The octets of `name`, ended by a NUL, stand at `at` in front of `limit`. */
  predicate Spelled(data: seq<byte>, at: nat, limit: nat, name: string) {
    && at + |name| < limit <= |data|
    && (forall j :: 0 <= j < |name| ==> 0 < name[j] as int < 128 && name[j] as int == data[at + j])
    && data[at + |name|] == 0
  }

  /** The file has one load segment, at any place in the file and at any address, and one dynamic segment. */
  predicate HasTwo(data: seq<byte>, load: Segment, dyn: Segment) {
    && IsElf(data) && HasHeaders(data) && Segments(data) == [load, dyn]
    && load.kind == 1 && load.file + load.extent <= |data|
    && dyn.kind == 2 && dyn.file + dyn.extent <= |data| && dyn.extent % 16 == 0
  }

  /** The load segment maps a table of at most 8 MiB. */
  predicate Holds(load: Segment, address: nat, length: nat) {
    load.address <= address && address + length <= load.address + load.extent && length <= 8 * 1024 * 1024
  }

  /** With a table in the load segment the file lists the name that stands as far behind the start of the segment's
      content as its address lies behind the segment's address. */
  lemma ListsOne(data: seq<byte>, load: Segment, dyn: Segment, address: nat, length: nat, offset: nat,
                 dependency: string)
    requires HasTwo(data, load, dyn) && Holds(load, address, length)
    requires Entries(data, dyn.file, dyn.file + dyn.extent) == [Tag(5, address), Tag(10, length), Tag(1, offset)]
    requires var table := load.file + (address - load.address);
             Spelled(data, table + offset, table + length, dependency)
    ensures Lists(data, [dependency])
  {
    var a, b, c := Tag(DT_STRTAB, address), Tag(DT_STRSZ, length), Tag(DT_NEEDED, offset);
    NamedOne(data, load, dyn, a, b, c, dependency);
    ListsTwo(data, load, dyn, [a, b, c], dependency);
  }

  lemma ListsTwo(data: seq<byte>, load: Segment, dyn: Segment, tags: seq<Tag>, name: string)
    requires HasTwo(data, load, dyn)
    requires Entries(data, dyn.file, dyn.file + dyn.extent) == tags && Named(data, [load, dyn], tags, [name])
    ensures Lists(data, [name])
  {
    TwoSegments(data, load, dyn);
    ListsNamed(data, [load, dyn], tags, name);
  }

  lemma ListsNamed(data: seq<byte>, segments: seq<Segment>, tags: seq<Tag>, name: string)
    requires IsElf(data) && HasHeaders(data) && Segments(data) == segments && AllFit(segments, |data|)
    requires Tags(data, segments) == tags && Named(data, segments, tags, [name])
    ensures Lists(data, [name])
  {}

  lemma NamedOne(data: seq<byte>, load: Segment, dyn: Segment, a: Tag, b: Tag, c: Tag, dependency: string)
    requires load.kind == PT_LOAD && dyn.kind == PT_DYNAMIC && Holds(load, a.value, b.value)
    requires a.key == DT_STRTAB && b.key == DT_STRSZ && c.key == DT_NEEDED
    requires var table := load.file + (a.value - load.address);
             Spelled(data, table + c.value, table + b.value, dependency)
    ensures Named(data, [load, dyn], [a, b, c], [dependency])
  {
    var table := load.file + (a.value - load.address);
    TableOf(load, dyn, a, b, c);
    SpelledIsName(data, table, b.value, c.value, dependency);
    ValuesOf(a, b, c);
    NamedInTable(data, [load, dyn], [a, b, c], table, b.value, c.value, dependency);
  }

  lemma SpelledIsName(data: seq<byte>, table: nat, length: nat, offset: nat, name: string)
    requires Spelled(data, table + offset, table + length, name)
    ensures NameAt(data, table, length, offset, name)
  {}

  lemma NamedInTable(data: seq<byte>, segments: seq<Segment>, tags: seq<Tag>, table: nat, length: nat, offset: nat,
                     name: string)
    requires StringTable(segments, tags, table, length) && Values(tags, DT_NEEDED) == [offset]
    requires NameAt(data, table, length, offset, name)
    ensures Named(data, segments, tags, [name])
  {
    assert NamesAt(data, table, length, [offset], [name]);
  }

  lemma TableOf(load: Segment, dyn: Segment, a: Tag, b: Tag, c: Tag)
    requires a.key == DT_STRTAB && b.key == DT_STRSZ && c.key == DT_NEEDED
    requires load.kind == PT_LOAD && dyn.kind == PT_DYNAMIC && Holds(load, a.value, b.value)
    ensures StringTable([load, dyn], [a, b, c], load.file + (a.value - load.address), b.value)
  {
    ValuesOf(a, b, c);
    assert MapsAlone([load, dyn], 0, a.value, b.value);
  }

  /** A table that two load segments map is refused. */
  lemma AmbiguousTableRefused(data: seq<byte>, i: nat, j: nat, address: nat, length: nat)
    requires IsElf(data) && HasHeaders(data) && AllFit(Segments(data), |data|) && i < j < |Segments(data)|
    requires var tags := Tags(data, Segments(data));
             Values(tags, 1) != [] && Values(tags, 5) == [address] && Values(tags, 10) == [length]
    requires Covers(Segments(data)[i], address, length) && Covers(Segments(data)[j], address, length)
    ensures forall names :: !Lists(data, names)
  {
    var segments := Segments(data);
    forall start, other
      ensures !StringTable(segments, Tags(data, segments), start, other)
    {
      assert [other][0] == other && [length][0] == length;
      assert Maps(segments[i], address, length) && Maps(segments[j], address, length);
    }
  }

  /** A file with the magic is refused outside 64 bytes to 128 MiB, as another class or encoding, with headers of
      another size, more than 1024 of them or some outside the file, and with a table above 8 MiB. */
  lemma OutsideBoundsRefused(data: seq<byte>)
    requires IsElf(data)
    requires |data| < 64 || |data| > 128 * 1024 * 1024 || data[4] != 2 || data[5] != 1 || Field(data, 54, 2) != 56
             || Field(data, 56, 2) > 1024 || Field(data, 32, 8) + 56 * Field(data, 56, 2) > |data|
             || (HasHeaders(data) && AllFit(Segments(data), |data|)
                 && Values(Tags(data, Segments(data)), 1) != []
                 && exists length :: length in Values(Tags(data, Segments(data)), 10) && length > 8 * 1024 * 1024)
    ensures forall names :: !Lists(data, names)
  {}

  /** A table whose address or length is not given exactly once is refused. */
  lemma RepeatedTableRefused(data: seq<byte>)
    requires IsElf(data) && HasHeaders(data) && AllFit(Segments(data), |data|)
    requires var tags := Tags(data, Segments(data));
             Values(tags, 1) != [] && (|Values(tags, 5)| != 1 || |Values(tags, 10)| != 1)
    ensures forall names :: !Lists(data, names)
  {}

  predicate Covers(s: Segment, address: nat, length: nat) {
    s.kind == 1 && s.address <= address && address + length <= s.address + s.extent
  }

  lemma SegmentsLaidOut(data: seq<byte>, dependency: string)
    requires LaidOut(data, dependency) && 2 + |dependency| <= MAX_TABLE
    ensures HasHeaders(data)
    ensures Segments(data) == [Segment(PT_LOAD, 0, 0, |data|), Segment(PT_DYNAMIC, 176, 176, 64)]
  {
    assert SegmentAt(data, 0) == Segment(PT_LOAD, 0, 0, |data|);
    assert SegmentAt(data, 1) == Segment(PT_DYNAMIC, 176, 176, 64);
  }

  lemma TwoSegments(data: seq<byte>, load: Segment, dyn: Segment)
    requires load.kind == PT_LOAD && dyn.kind == PT_DYNAMIC && Fits(load, |data|) && Fits(dyn, |data|)
    ensures AllFit([load, dyn], |data|)
    ensures Tags(data, [load, dyn]) == Entries(data, dyn.file, dyn.file + dyn.extent)
  {
    var segments := [load, dyn];
    assert segments[..0] == [] && segments[..1] == [load] && segments[..2] == segments;
    TagsOneMore(data, segments, 0);
    TagsOneMore(data, segments, 1);
    assert Tags(data, []) + EntriesOf(data, load) == [];
  }

  lemma FourEntries(data: seq<byte>, at: nat, a: Tag, b: Tag, c: Tag)
    requires Entry(data, at, a) && Entry(data, at + 16, b) && Entry(data, at + 32, c)
    requires Entry(data, at + 48, Tag(DT_NULL, 0))
    requires a.key != DT_NULL && b.key != DT_NULL && c.key != DT_NULL
    ensures Entries(data, at, at + 64) == [a, b, c]
  {
    assert Entries(data, at + 48, at + 64) == [];
    OneEntry(data, at + 32, at + 64, c);
    OneEntry(data, at + 16, at + 64, b);
    OneEntry(data, at, at + 64, a);
  }

  lemma OneEntry(data: seq<byte>, at: nat, limit: nat, t: Tag)
    requires Entry(data, at, t) && t.key != DT_NULL && at + 16 <= limit <= |data|
    ensures Entries(data, at, limit) == [t] + Entries(data, at + 16, limit)
  {}

  lemma ValuesOf(a: Tag, b: Tag, c: Tag)
    requires a.key == DT_STRTAB && b.key == DT_STRSZ && c.key == DT_NEEDED
    ensures Values([a, b, c], DT_STRTAB) == [a.value]
    ensures Values([a, b, c], DT_STRSZ) == [b.value]
    ensures Values([a, b, c], DT_NEEDED) == [c.value]
  {
    forall key: nat
      ensures Values([a, b, c], key) == ValueOf(a, key) + ValueOf(b, key) + ValueOf(c, key)
    {
      ValuesSnoc([a, b], c, key);
      ValuesSnoc([a], b, key);
      ValuesSnoc([], a, key);
      assert [] + [a] == [a] && [a] + [b] == [a, b] && [a, b] + [c] == [a, b, c];
      assert [] + ValueOf(a, key) == ValueOf(a, key);
    }
  }

  lemma ValuesSnoc(tags: seq<Tag>, tag: Tag, key: nat)
    ensures Values(tags + [tag], key) == Values(tags, key) + ValueOf(tag, key)
  {
    assert (tags + [tag])[..|tags|] == tags;
  }

  lemma WidthsHold()
    ensures Power256(2) == 0x1_0000
    ensures Power256(4) == 0x1_0000_0000
    ensures Power256(8) == 0x1_0000_0000_0000_0000
  {
    assert Power256(1) == 256;
    assert Power256(3) == 256 * Power256(2);
    assert Power256(4) == 256 * Power256(3);
    assert Power256(5) == 256 * Power256(4);
    assert Power256(6) == 256 * Power256(5);
    assert Power256(7) == 256 * Power256(6);
  }

  method PackHeader(data: seq<byte>, at: nat, s: Segment) returns (packed: seq<byte>)
    requires at + HEADER_SIZE <= |data|
    requires s.kind < Power256(4) && s.file < Power256(8) && s.address < Power256(8) && s.extent < Power256(8)
    ensures |packed| == |data| && Header(packed, at, s)
    ensures Elsewhere(data, packed, at, HEADER_SIZE)
  {
    packed := PackInto(data, at, s.kind, 4);
    packed := PackInto(packed, at + 8, s.file, 8);
    packed := PackInto(packed, at + 16, s.address, 8);
    packed := PackInto(packed, at + 32, s.extent, 8);
  }

  method PackEntry(data: seq<byte>, at: nat, t: Tag) returns (packed: seq<byte>)
    requires at + 16 <= |data| && t.key < Power256(8) && t.value < Power256(8)
    ensures |packed| == |data| && Entry(packed, at, t)
    ensures Elsewhere(data, packed, at, 16)
  {
    packed := PackInto(data, at, t.key, 8);
    packed := PackInto(packed, at + 8, t.value, 8);
  }

  predicate HeadersLaidOut(data: seq<byte>) {
    && |data| >= 240
    && Field(data, 32, 8) == 64 && Field(data, 54, 2) == HEADER_SIZE && Field(data, 56, 2) == 2
    && Header(data, 64, Segment(PT_LOAD, 0, 0, |data|))
    && Header(data, 120, Segment(PT_DYNAMIC, 176, 176, 64))
  }

  method PackHeaders(data: seq<byte>) returns (packed: seq<byte>)
    requires 240 <= |data| < Power256(8)
    ensures HeadersLaidOut(packed)
    ensures Elsewhere(data, packed, 32, 144)
  {
    WidthsHold();
    packed := PackInto(data, 32, 64, 8);
    packed := PackInto(packed, 54, HEADER_SIZE, 2);
    packed := PackInto(packed, 56, 2, 2);
    packed := PackHeader(packed, 64, Segment(PT_LOAD, 0, 0, |data|));
    packed := PackHeader(packed, 120, Segment(PT_DYNAMIC, 176, 176, 64));
  }

  predicate DynamicLaidOut(data: seq<byte>, length: nat) {
    && |data| >= 240
    && Entry(data, 176, Tag(DT_STRTAB, 240))
    && Entry(data, 192, Tag(DT_STRSZ, length))
    && Entry(data, 208, Tag(DT_NEEDED, 1))
    && Entry(data, 224, Tag(DT_NULL, 0))
  }

  method PackDynamic(data: seq<byte>, length: nat) returns (packed: seq<byte>)
    requires 240 <= |data| && length < Power256(8)
    ensures DynamicLaidOut(packed, length)
    ensures Elsewhere(data, packed, 176, 64)
  {
    WidthsHold();
    packed := PackEntry(data, 176, Tag(DT_STRTAB, 240));
    packed := PackEntry(packed, 192, Tag(DT_STRSZ, length));
    packed := PackEntry(packed, 208, Tag(DT_NEEDED, 1));
    packed := PackEntry(packed, 224, Tag(DT_NULL, 0));
  }

  /** The test's image builder: identification, two program headers, four dynamic entries, the name. */
  method BuildImage(dependency: string) returns (payload: seq<byte>)
    requires IsLibraryName(dependency) && 2 + |dependency| <= MAX_TABLE
    ensures Taken(payload) == payload
    ensures Lists(payload, [dependency])
  {
    WidthsHold();
    var blank := Blank(dependency);
    var headers := PackHeaders(blank);
    payload := PackDynamic(headers, 2 + |dependency|);
    HeadersKept(headers, payload);
    BlankKept(dependency, blank, headers, payload);
    LayoutListsDependency(payload, dependency);
  }

  lemma HeadersKept(data: seq<byte>, packed: seq<byte>)
    requires HeadersLaidOut(data) && Elsewhere(data, packed, 176, 64)
    ensures HeadersLaidOut(packed)
  {}

  lemma BlankKept(dependency: string, blank: seq<byte>, headers: seq<byte>, payload: seq<byte>)
    requires IsLibraryName(dependency) && blank == Blank(dependency)
    requires Elsewhere(blank, headers, 32, 144) && Elsewhere(headers, payload, 176, 64)
    ensures IsElf(payload) && payload[4] == 2 && payload[5] == 1
    ensures TextAt(payload, 241, |payload|, dependency)
  {
    assert payload[..4] == blank[..4] && payload[4] == blank[4] && payload[5] == blank[5];
  }

  /** Identification in front, the name with its two NULs at the end, nothing in between. */
  function Blank(dependency: string): (data: seq<byte>)
    requires IsLibraryName(dependency)
    ensures |data| == 242 + |dependency|
    ensures IsElf(data) && data[4] == 2 && data[5] == 1
    ensures TextAt(data, 241, |data|, dependency)
  {
    var data := seq(242 + |dependency|, i requires 0 <= i < 242 + |dependency| => OctetAt(dependency, i));
    assert data[..4] == MAGIC;
    assert forall j :: 0 <= j < |dependency| ==>
      dependency[j] in dependency && data[241 + j] == OctetAt(dependency, 241 + j);
    data
  }

  function OctetAt(dependency: string, i: nat): byte
    requires IsLibraryName(dependency)
  {
    if i < 4 then MAGIC[i]
    else if i == 4 then 2
    else if i == 5 then 1
    else if 241 <= i < 241 + |dependency| then
      assert dependency[i - 241] in dependency; dependency[i - 241] as int
    else 0
  }
}
