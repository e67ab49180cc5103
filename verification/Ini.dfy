// The minimal INI reader of the iwd backend, and the block structure of the files
// it reads.
module Ini {
  import opened Text

  type Entries = map<string, string>
  type Sections = map<string, Entries>

  // ---- the reader, line by line -----------------------------------------------

  datatype Line = Blank | Header(name: string) | Entry(key: string, value: string) | Junk

  function Classify(raw: string): Line {
    var line := Trim(raw);
    if line == "" || line[0] == '#' || line[0] == ';' then Blank
    else if line[0] == '[' && line[|line| - 1] == ']' then Header(line[1..|line| - 1])
    else
      var i := IndexByte(line, '=');
      if i >= 0 then Entry(Trim(line[..i]), Trim(line[i + 1..])) else Junk
  }

  // The map under construction and the section being filled ("" before any).
  datatype Reader = Reader(out: Sections, cur: string)

  const START := Reader(map[], "")

  function Section(out: Sections, name: string): Entries {
    if name in out then out[name] else map[]
  }

  function Feed(r: Reader, line: Line): Reader {
    match line
    case Blank => r
    case Junk => r
    case Header(name) => Reader(r.out[name := Section(r.out, name)], name)
    case Entry(k, v) =>
      if r.cur == "" then r else Reader(r.out[r.cur := Section(r.out, r.cur)[k := v]], r.cur)
  }

  ghost function FeedAll(r: Reader, lines: seq<string>): Reader
    decreases |lines|
  {
    if lines == [] then r else FeedAll(Feed(r, Classify(lines[0])), lines[1..])
  }

  ghost function ParseSpec(content: string): Sections {
    FeedAll(START, Lines(content)).out
  }

  lemma {:induction false} FeedAllAppend(r: Reader, a: seq<string>, b: seq<string>)
    ensures FeedAll(r, a + b) == FeedAll(FeedAll(r, a), b)
    decreases |a|
  {
    if a == [] {
      assert a + b == b;
    } else {
      assert (a + b)[1..] == a[1..] + b;
      FeedAllAppend(Feed(r, Classify(a[0])), a[1..], b);
    }
  }

  lemma FeedAllNext(r: Reader, lines: seq<string>, i: nat)
    requires i < |lines|
    ensures FeedAll(r, lines[i..]) == FeedAll(Feed(r, Classify(lines[i])), lines[i + 1..])
  {
    assert lines[i..][1..] == lines[i + 1..];
  }

  method ParseINI(content: string) returns (out: Sections)
    ensures out == ParseSpec(content)
  {
    out := map[];
    var cur := "";
    var lines := Lines(content);
    for i := 0 to |lines|
      invariant FeedAll(START, lines) == FeedAll(Reader(out, cur), lines[i..])
    {
      var line := Trim(lines[i]);
      FeedAllNext(Reader(out, cur), lines, i);
      if line == "" || line[0] == '#' || line[0] == ';' {
        continue;
      }
      if line[0] == '[' && line[|line| - 1] == ']' {
        assert Classify(lines[i]) == Header(line[1..|line| - 1]);
        cur := line[1..|line| - 1];
        if cur !in out {
          out := out[cur := map[]];
        }
        assert out[cur := out[cur]] == out;
        continue;
      }
      var e := IndexByte(line, '=');
      assert Classify(lines[i]) == if e < 0 then Junk else Entry(Trim(line[..e]), Trim(line[e + 1..]));
      if e >= 0 && cur != "" {
        var entries := if cur in out then out[cur] else map[];
        out := out[cur := entries[Trim(line[..e]) := Trim(line[e + 1..])]];
      }
    }
  }

  // ---- what a reader can return -------------------------------------------------

  // A value that fits on one line and that trimming leaves alone.
  predicate IsClean(v: string) {
    '\n' !in v && IsTrimmed(v)
  }

  predicate AllClean(out: Sections) {
    forall s, k :: s in out && k in out[s] ==> IsClean(out[s][k])
  }

  lemma TrimIsClean(s: string)
    requires '\n' !in s
    ensures IsClean(Trim(s))
  {
    TrimIsTrimmed(s);
  }

  lemma SuffixIsOneLine(s: string, i: nat)
    requires i <= |s| && '\n' !in s
    ensures '\n' !in s[i..]
  {
  }

  lemma EntryValueIsClean(line: string, i: nat)
    requires i < |line| && '\n' !in line
    ensures IsClean(Trim(line[i + 1..]))
  {
    SuffixIsOneLine(line, i + 1);
    TrimIsClean(line[i + 1..]);
  }

  lemma EntryValue(raw: string)
    ensures Classify(raw).Entry? ==>
              && IndexByte(Trim(raw), '=') >= 0
              && Classify(raw).value == Trim(Trim(raw)[IndexByte(Trim(raw), '=') + 1..])
  {
  }

  lemma ClassifyClean(raw: string)
    requires '\n' !in raw
    ensures Classify(raw).Entry? ==> IsClean(Classify(raw).value)
  {
    if Classify(raw).Entry? {
      TrimIsClean(raw);
      EntryValue(raw);
      EntryValueIsClean(Trim(raw), IndexByte(Trim(raw), '='));
    }
  }

  lemma {:induction false} FeedAllClean(r: Reader, lines: seq<string>)
    requires AllClean(r.out)
    requires forall l :: l in lines ==> '\n' !in l
    ensures AllClean(FeedAll(r, lines).out)
    decreases |lines|
  {
    if lines != [] {
      ClassifyClean(lines[0]);
      FeedAllClean(Feed(r, Classify(lines[0])), lines[1..]);
    }
  }

  // Whatever the file holds, a value read from it is clean.
  lemma ValuesAreClean(content: string)
    ensures AllClean(ParseSpec(content))
  {
    FeedAllClean(START, Lines(content));
  }

  // ---- printing blocks ------------------------------------------------------------

  datatype Block = Block(name: string, entries: seq<(string, string)>)

  function EntryLine(e: (string, string)): string {
    e.0 + "=" + e.1
  }

  ghost function EntryLines(es: seq<(string, string)>): seq<string> {
    if es == [] then [] else [EntryLine(es[0])] + EntryLines(es[1..])
  }

  ghost function BlockLines(b: Block): seq<string> {
    ["[" + b.name + "]"] + EntryLines(b.entries)
  }

  // Blocks are set apart by one empty line.
  ghost function FileLines(bs: seq<Block>): seq<string> {
    if bs == [] then []
    else if |bs| == 1 then BlockLines(bs[0])
    else BlockLines(bs[0]) + [""] + FileLines(bs[1..])
  }

  ghost function Print(bs: seq<Block>): string {
    Unlines(FileLines(bs))
  }

  // ---- reading blocks back ---------------------------------------------------------

  predicate IsKey(k: string) {
    && k != "" && IsTrimmed(k) && '\n' !in k && '=' !in k
    && k[0] != '#' && k[0] != ';' && k[0] != '['
  }

  predicate AreCleanEntries(es: seq<(string, string)>) {
    forall i :: 0 <= i < |es| ==> IsKey(es[i].0) && IsClean(es[i].1)
  }

  predicate IsCleanBlock(b: Block) {
    b.name != "" && '\n' !in b.name && AreCleanEntries(b.entries)
  }

  predicate AreCleanBlocks(bs: seq<Block>) {
    forall i :: 0 <= i < |bs| ==> IsCleanBlock(bs[i])
  }

  ghost function AddEntries(m: Entries, es: seq<(string, string)>): Entries
    decreases |es|
  {
    if es == [] then m else AddEntries(m[es[0].0 := es[0].1], es[1..])
  }

  ghost function AddBlocks(out: Sections, bs: seq<Block>): Sections
    decreases |bs|
  {
    if bs == [] then out
    else AddBlocks(out[bs[0].name := AddEntries(Section(out, bs[0].name), bs[0].entries)], bs[1..])
  }

  lemma ClassifyEntry(k: string, v: string)
    requires IsKey(k) && IsClean(v)
    ensures Classify(EntryLine((k, v))) == Entry(k, v)
    ensures '\n' !in EntryLine((k, v))
  {
    var line := k + "=" + v;
    assert line == k + ['='] + v;
    assert IsTrimmed(line) by {
      assert line[0] == k[0];
      assert line[|line| - 1] == if v == "" then '=' else v[|v| - 1];
    }
    TrimIsTrimmed(line);
    TrimIsTrimmed(k);
    TrimIsTrimmed(v);
    IndexByteAt(k, '=', v);
  }

  lemma ClassifyHeader(name: string)
    requires '\n' !in name
    ensures Classify("[" + name + "]") == Header(name)
    ensures '\n' !in "[" + name + "]"
  {
    var line := "[" + name + "]";
    TrimIsTrimmed(line);
    assert line[1..|line| - 1] == name;
  }

  lemma FeedEntry(r: Reader, e: (string, string), rest: seq<string>)
    requires IsKey(e.0) && IsClean(e.1) && r.cur != "" && r.cur in r.out
    ensures FeedAll(r, [EntryLine(e)] + rest) == FeedAll(Reader(r.out[r.cur := r.out[r.cur][e.0 := e.1]], r.cur), rest)
  {
    ClassifyEntry(e.0, e.1);
    assert ([EntryLine(e)] + rest)[1..] == rest;
  }

  lemma {:induction false} EntryLinesAreLines(es: seq<(string, string)>)
    requires AreCleanEntries(es)
    ensures forall l :: l in EntryLines(es) ==> '\n' !in l
  {
    if es != [] {
      ClassifyEntry(es[0].0, es[0].1);
      EntryLinesAreLines(es[1..]);
    }
  }

  lemma {:induction false} ReadEntries(r: Reader, es: seq<(string, string)>)
    requires AreCleanEntries(es) && r.cur != "" && r.cur in r.out
    ensures FeedAll(r, EntryLines(es)) == Reader(r.out[r.cur := AddEntries(r.out[r.cur], es)], r.cur)
    decreases |es|
  {
    if es == [] {
      assert r.out[r.cur := r.out[r.cur]] == r.out;
    } else {
      FeedEntry(r, es[0], EntryLines(es[1..]));
      var r' := Reader(r.out[r.cur := r.out[r.cur][es[0].0 := es[0].1]], r.cur);
      ReadEntries(r', es[1..]);
      var m := AddEntries(r'.out[r.cur], es[1..]);
      assert r'.out[r.cur := m] == r.out[r.cur := m];
    }
  }

  lemma ReadBlock(r: Reader, b: Block)
    requires IsCleanBlock(b)
    ensures FeedAll(r, BlockLines(b)) == Reader(r.out[b.name := AddEntries(Section(r.out, b.name), b.entries)], b.name)
    ensures forall l :: l in BlockLines(b) ==> '\n' !in l
  {
    ClassifyHeader(b.name);
    var r' := Feed(r, Header(b.name));
    ReadEntries(r', b.entries);
    EntryLinesAreLines(b.entries);
    var lines := BlockLines(b);
    assert lines[1..] == EntryLines(b.entries);
    var m := AddEntries(Section(r.out, b.name), b.entries);
    assert r'.out[b.name := m] == r.out[b.name := m];
  }

  lemma {:induction false} ReadFile(r: Reader, bs: seq<Block>)
    requires AreCleanBlocks(bs)
    ensures FeedAll(r, FileLines(bs)).out == AddBlocks(r.out, bs)
    ensures forall l :: l in FileLines(bs) ==> '\n' !in l
    decreases |bs|
  {
    if |bs| == 1 {
      ReadBlock(r, bs[0]);
      assert bs[1..] == [];
    } else if |bs| > 1 {
      ReadBlock(r, bs[0]);
      var r1 := FeedAll(r, BlockLines(bs[0]));
      assert Classify("") == Blank;
      FeedAllAppend(r, BlockLines(bs[0]) + [""], FileLines(bs[1..]));
      FeedAllAppend(r, BlockLines(bs[0]), [""]);
      assert FeedAll(r1, [""]) == FeedAll(r1, []) by { assert [""][1..] == []; }
      ReadFile(r1, bs[1..]);
    }
  }

  // The printer/parser pair: any clean blocks are read back as the map they
  // describe, whatever their number, names and keys.
  lemma PrintParse(bs: seq<Block>)
    requires AreCleanBlocks(bs)
    ensures ParseSpec(Print(bs)) == AddBlocks(map[], bs)
  {
    ReadFile(START, bs);
    LinesUnlines(FileLines(bs));
  }

  // ---- the map of a block list ------------------------------------------------------

  lemma {:induction false} AddEntriesAppend(m: Entries, a: seq<(string, string)>, b: seq<(string, string)>)
    ensures AddEntries(m, a + b) == AddEntries(AddEntries(m, a), b)
    decreases |a|
  {
    if a == [] {
      assert a + b == b;
    } else {
      assert (a + b)[1..] == a[1..] + b;
      AddEntriesAppend(m[a[0].0 := a[0].1], a[1..], b);
    }
  }

  lemma AddEntry(m: Entries, a: seq<(string, string)>, k: string, v: string)
    ensures AddEntries(m, a + [(k, v)]) == AddEntries(m, a)[k := v]
  {
    AddEntriesAppend(m, a, [(k, v)]);
    assert [(k, v)][1..] == [];
  }

  lemma {:induction false} AddBlocksAppend(out: Sections, a: seq<Block>, b: seq<Block>)
    ensures AddBlocks(out, a + b) == AddBlocks(AddBlocks(out, a), b)
    decreases |a|
  {
    if a == [] {
      assert a + b == b;
    } else {
      assert (a + b)[1..] == a[1..] + b;
      AddBlocksAppend(out[a[0].name := AddEntries(Section(out, a[0].name), a[0].entries)], a[1..], b);
    }
  }

  lemma AddFreshBlock(out: Sections, a: seq<Block>, b: Block)
    requires b.name !in AddBlocks(out, a)
    ensures AddBlocks(out, a + [b]) == AddBlocks(out, a)[b.name := AddEntries(map[], b.entries)]
  {
    AddBlocksAppend(out, a, [b]);
    assert [b][1..] == [];
  }
}
