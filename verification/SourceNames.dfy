/** Archive names as the source carrier checks them, and the lines of its text inventory. */
module SourceNames {
  import opened Wrappers

  /** The components between slashes; there is always at least one. */
  function Split(s: string): (parts: seq<string>)
    ensures parts != []
  {
    if s == "" then [""]
    else if s[0] == '/' then [""] + Split(s[1..])
    else
      var rest := Split(s[1..]);
      [[s[0]] + rest[0]] + rest[1..]
  }

  function Join(parts: seq<string>): string {
    if parts == [] then ""
    else if |parts| == 1 then parts[0]
    else parts[0] + "/" + Join(parts[1..])
  }

  /** A path library drops empty components and single dots. */
  function Kept(parts: seq<string>): (kept: seq<string>)
    ensures |kept| <= |parts|
    ensures forall p <- kept :: p in parts && p != "" && p != "."
  {
    if parts == [] then []
    else
      var rest := Kept(parts[1..]);
      if parts[0] == "" || parts[0] == "." then rest else [parts[0]] + rest
  }

  function Rendered(kept: seq<string>): string {
    if kept == [] then "." else Join(kept)
  }

  /** The name survives a round trip through the path library, is relative, and holds neither ".." nor a newline. */
  predicate SafeName(name: string) {
    && !(name != "" && name[0] == '/')
    && ".." !in Kept(Split(name))
    && Rendered(Kept(Split(name))) == name
    && '\n' !in name
  }

  predicate PlainComponent(p: string) {
    p != "" && p != "." && p != ".."
  }

  predicate PlainName(name: string) {
    (forall p <- Split(name) :: PlainComponent(p)) && '\n' !in name
  }

  lemma {:induction false} JoinOfSplit(s: string)
    ensures Join(Split(s)) == s
  {
    if s != "" {
      JoinOfSplit(s[1..]);
      var rest := Split(s[1..]);
      if s[0] == '/' {
        assert ([""] + rest)[1..] == rest;
      } else {
        assert ([[s[0]] + rest[0]] + rest[1..])[1..] == rest[1..];
        if |rest| > 1 {
          assert [s[0]] + rest[0] + "/" + Join(rest[1..]) == [s[0]] + (rest[0] + "/" + Join(rest[1..]));
        }
      }
    }
  }

  predicate NoSlash(p: string) {
    forall c <- p :: c != '/'
  }

  lemma {:induction false} SplitHasNoSlash(s: string)
    ensures forall p <- Split(s) :: NoSlash(p)
  {
    if s != "" {
      SplitHasNoSlash(s[1..]);
      var rest := Split(s[1..]);
      assert NoSlash(rest[0]) && forall p <- rest[1..] :: p in rest;
    }
  }

  lemma {:induction false} SplitOfPlain(p: string)
    requires NoSlash(p)
    ensures Split(p) == [p]
  {
    if p != "" {
      assert p[0] in p && forall c <- p[1..] :: c in p;
      SplitOfPlain(p[1..]);
      assert [p[0]] + p[1..] == p;
    }
  }

  /** A slash separates: the components of both sides follow each other. */
  lemma {:induction false} SplitOfTwo(a: string, b: string)
    ensures Split(a + "/" + b) == Split(a) + Split(b)
  {
    var s := a + "/" + b;
    if a == "" {
      assert s[0] == '/' && s[1..] == b;
    } else {
      assert s[0] == a[0] && s[1..] == a[1..] + "/" + b;
      SplitOfTwo(a[1..], b);
      FirstOfMore(Split(a[1..]), Split(b));
    }
  }

  lemma FirstOfMore<T>(parts: seq<T>, more: seq<T>)
    requires parts != []
    ensures (parts + more)[0] == parts[0] && (parts + more)[1..] == parts[1..] + more
  {}

  lemma {:induction false} SplitOfJoin(parts: seq<string>)
    requires parts != [] && forall p <- parts :: NoSlash(p)
    ensures Split(Join(parts)) == parts
  {
    assert parts[0] in parts;
    SplitOfPlain(parts[0]);
    if |parts| > 1 {
      assert forall p <- parts[1..] :: p in parts;
      SplitOfJoin(parts[1..]);
      SplitOfTwo(parts[0], Join(parts[1..]));
      assert parts == [parts[0]] + parts[1..];
    } else {
      assert parts == [parts[0]];
    }
  }

  lemma {:induction false} KeptAll(parts: seq<string>)
    requires Kept(parts) == parts
    ensures forall p <- parts :: p != "" && p != "."
  {}

  lemma {:induction false} KeptPlain(parts: seq<string>)
    requires forall p <- parts :: p != "" && p != "."
    ensures Kept(parts) == parts
  {
    if parts != [] {
      assert parts[0] in parts && forall p <- parts[1..] :: p in parts;
      KeptPlain(parts[1..]);
      assert parts == [parts[0]] + parts[1..];
    }
  }

  /** The check accepts the lone dot and the names whose components are all plain, and nothing else. */
  lemma SafeNameIff(name: string)
    ensures SafeName(name) <==> name == "." || PlainName(name)
  {
    var parts := Split(name);
    SplitHasNoSlash(name);
    JoinOfSplit(name);
    if SafeName(name) && name != "." {
      SplitOfJoin(Kept(parts));
      KeptAll(parts);
    }
    assert name != "" && name[0] == '/' ==> parts[0] == "";
    assert parts[0] in parts;
    if PlainName(name) {
      KeptPlain(parts);
    }
    if name == "." {
      SplitOfPlain(".");
    }
  }

  /** Below a plain directory exactly the plain names are safe. */
  lemma SafeBelow(root: string, name: string)
    requires PlainName(root)
    ensures SafeName(root + "/" + name) <==> PlainName(name)
  {
    var whole := root + "/" + name;
    SplitOfTwo(root, name);
    SafeNameIff(whole);
    assert forall p :: p in Split(whole) <==> p in Split(root) || p in Split(name);
    assert whole != "." by {
      SplitOfPlain(".");
      assert |Split(whole)| >= 2;
    }
    assert '\n' in whole <==> '\n' in name;
  }

  /** The characters at which the reader breaks lines. */
  predicate IsBreak(c: char) {
    || 0x0a <= c as int <= 0x0d
    || 0x1c <= c as int <= 0x1e
    || c as int == 0x85 || c as int == 0x2028 || c as int == 0x2029
  }

  predicate Unbroken(s: string) {
    forall i :: 0 <= i < |s| ==> !IsBreak(s[i])
  }

  function LineEnd(s: string): (k: nat)
    ensures k <= |s| && Unbroken(s[..k]) && (k < |s| ==> IsBreak(s[k]))
  {
    if s == "" || IsBreak(s[0]) then 0
    else
      var k := LineEnd(s[1..]);
      assert s[..k + 1] == [s[0]] + s[1..][..k];
      k + 1
  }

  /** The lines of a text; a carriage return and a newline after it are one break, and a final break opens no line. */
  function SplitLines(s: string): seq<string>
    decreases |s|
  {
    if s == "" then []
    else
      var k := LineEnd(s);
      if k == |s| then [s]
      else
        var skip := if s[k] == '\r' && k + 1 < |s| && s[k + 1] == '\n' then 2 else 1;
        [s[..k]] + SplitLines(s[k + skip..])
  }

  lemma {:induction false} LinesAreUnbroken(s: string)
    ensures forall l <- SplitLines(s) :: Unbroken(l)
    decreases |s|
  {
    if s != "" && LineEnd(s) < |s| {
      var k := LineEnd(s);
      var skip := if s[k] == '\r' && k + 1 < |s| && s[k + 1] == '\n' then 2 else 1;
      LinesAreUnbroken(s[k + skip..]);
    } else if s != "" {
      assert s[..|s|] == s;
    }
  }

  function Terminated(lines: seq<string>): string {
    if lines == [] then "" else lines[0] + "\n" + Terminated(lines[1..])
  }

  /** Reading inverts writing for lines without breaks. */
  lemma {:induction false} SplitTerminated(lines: seq<string>)
    requires forall l <- lines :: Unbroken(l)
    ensures SplitLines(Terminated(lines)) == lines
  {
    if lines != [] {
      var first, rest := lines[0], Terminated(lines[1..]);
      assert first in lines && forall l <- lines[1..] :: l in lines;
      SplitTerminated(lines[1..]);
      SplitFirst(first, rest);
      assert lines == [first] + lines[1..];
    }
  }

  /** Every separator ends a line, a carriage return together with the newline behind it, and the end of the text ends a
      line that is not empty. */
  lemma SplitAtBreak(first: string, separator: string, rest: string)
    requires Unbroken(first)
    requires separator == "\r\n" || (|separator| == 1 && IsBreak(separator[0]))
    requires separator == "\r" && rest != "" ==> rest[0] != '\n'
    ensures SplitLines(first + separator + rest) == [first] + SplitLines(rest)
    ensures SplitLines(first) == if first == "" then [] else [first]
  {
    var s := first + separator + rest;
    assert forall i :: 0 <= i < |first| ==> s[i] == first[i];
    assert s[|first|] == separator[0];
    LineEndAt(s, |first|);
    assert s[..|first|] == first;
    assert s[|first| + |separator|..] == rest;
    assert |separator| == 1 && rest != "" ==> s[|first| + 1] == rest[0];
    if first != "" {
      assert LineEnd(first) == |first|;
    }
  }

  /** The separators, and nothing else, end a line. */
  lemma Separators(c: char)
    ensures IsBreak(c) <==>
            c in {'\n', '\U{b}', '\U{c}', '\r', '\U{1c}', '\U{1d}', '\U{1e}', '\U{85}', '\U{2028}', '\U{2029}'}
  {}

  lemma SplitFirst(first: string, rest: string)
    requires Unbroken(first)
    ensures SplitLines(first + "\n" + rest) == [first] + SplitLines(rest)
  {
    var s := first + "\n" + rest;
    LineEndAt(s, |first|);
    assert s[..|first|] == first && s[|first| + 1..] == rest;
  }

  lemma {:induction false} LineEndAt(s: string, k: nat)
    requires k < |s| && IsBreak(s[k]) && forall i :: 0 <= i < k ==> !IsBreak(s[i])
    ensures LineEnd(s) == k
  {
    if k > 0 {
      assert !IsBreak(s[0]);
      LineEndAt(s[1..], k - 1);
    }
  }

  /** The first place where two spaces stand; the length if there is none. */
  function Gap(line: string): (k: nat)
    ensures k <= |line|
    ensures k < |line| ==> k + 1 < |line| && line[k] == ' ' && line[k + 1] == ' '
  {
    if |line| < 2 then |line|
    else if line[0] == ' ' && line[1] == ' ' then 0
    else Gap(line[1..]) + 1
  }

  datatype Entry = Entry(digest: string, relative: string)

  /** A line split once at the first two spaces. */
  function ParseLine(line: string): Option<Entry> {
    var k := Gap(line);
    if k == |line| then None else Some(Entry(line[..k], line[k + 2..]))
  }

  function PrintLine(e: Entry): string {
    e.digest + "  " + e.relative
  }

  predicate IsHex64(s: string) {
    |s| == 64 && forall c <- s :: '0' <= c <= '9' || 'a' <= c <= 'f'
  }

  lemma {:induction false} GapAfter(digest: string, rest: string)
    requires forall c <- digest :: c != ' '
    ensures Gap(digest + "  " + rest) == |digest|
  {
    var line := digest + "  " + rest;
    if digest != "" {
      assert line[0] == digest[0] && digest[0] in digest;
      assert line[1..] == digest[1..] + "  " + rest;
      assert forall c <- digest[1..] :: c in digest;
      GapAfter(digest[1..], rest);
    }
  }

  /** Parsing inverts printing, whatever spaces the name holds. */
  lemma ParsePrinted(e: Entry)
    requires IsHex64(e.digest)
    ensures ParseLine(PrintLine(e)) == Some(e)
  {
    GapAfter(e.digest, e.relative);
    var line := PrintLine(e);
    assert line[..|e.digest|] == e.digest && line[|e.digest| + 2..] == e.relative;
  }
}
