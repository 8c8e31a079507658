// How help texts read back as option blocks. A text is a list of items: blank lines,
// lines that are no option, and options, each on its own line and the deeper lines its
// description wraps onto.
module HelpLayout {
  import opened HelpText
  import opened Text
  import opened Wrappers

  // A line of text behind its padding.
  datatype Chunk = Chunk(pad: string, text: string)

  datatype Printing = Printing(first: Chunk, rest: seq<Chunk>)

  datatype Item = Blank(pad: string) | Prose(line: Chunk) | Entry(option: Printing)

  function Line(c: Chunk): string {
    c.pad + c.text
  }

  function ChunkLines(chunks: seq<Chunk>): seq<string> {
    if chunks == [] then [] else [Line(chunks[0])] + ChunkLines(chunks[1..])
  }

  function ItemLines(item: Item): seq<string> {
    match item
    case Blank(pad) => [pad]
    case Prose(line) => [Line(line)]
    case Entry(o) => [Line(o.first)] + ChunkLines(o.rest)
  }

  function TextLines(items: seq<Item>): seq<string> {
    if items == [] then [] else ItemLines(items[0]) + TextLines(items[1..])
  }

  function Unlines(lines: seq<string>): string {
    if lines == [] then "" else lines[0] + "\n" + Unlines(lines[1..])
  }

  function TextOf(items: seq<Item>): string {
    Unlines(TextLines(items))
  }

  predicate Pad(s: string) {
    AllSpace(s) && '\n' !in s
  }

  predicate Trimmed(s: string) {
    s != "" && !IsSpace(s[0]) && !IsSpace(s[|s| - 1]) && '\n' !in s
  }

  predicate GoodChunk(c: Chunk) {
    Pad(c.pad) && Trimmed(c.text)
  }

  // The flags a line begins with; it is the line of an option when there are any.
  function FlagsOf(text: string): seq<string> {
    LeadingFlags(SplitWhitespace(text))
  }

  function Indent(o: Printing): nat {
    ByteLen(o.first.pad)
  }

  // Whatever is wrapped stands deeper, and may begin with anything, a dash included.
  predicate Printed(item: Item) {
    match item
    case Blank(pad) => Pad(pad)
    case Prose(line) => GoodChunk(line) && FlagsOf(line.text) == []
    case Entry(o) =>
      && GoodChunk(o.first) && FlagsOf(o.first.text) != []
      && forall k :: 0 <= k < |o.rest| ==> GoodChunk(o.rest[k]) && ByteLen(o.rest[k].pad) > Indent(o)
  }

  predicate AllPrinted(items: seq<Item>) {
    forall k :: 0 <= k < |items| ==> Printed(items[k])
  }

  // A text, and what further lines add to it.
  function TextFrom(text: string, chunks: seq<Chunk>): string
    decreases |chunks|
  {
    if chunks == [] then text else TextFrom(text + " " + chunks[0].text, chunks[1..])
  }

  lemma TextFromOne(text: string, c: Chunk, chunks: seq<Chunk>)
    ensures TextFrom(text, [c] + chunks) == TextFrom(text + " " + c.text, chunks)
    ensures TextFrom(text, [c]) == text + " " + c.text
  {
    assert ([c] + chunks)[1..] == chunks && [c][1..] == [];
    assert TextFrom(text + " " + c.text, []) == text + " " + c.text;
  }

  function FullText(o: Printing): string {
    TextFrom(o.first.text, o.rest)
  }

  // What is read of an option, and what would be read were it printed on one line.
  function Read(o: Printing): HelpOption {
    HelpOption(FlagsOf(o.first.text), FullText(o))
  }

  function Meaning(o: Printing): HelpOption {
    HelpOption(FlagsOf(FullText(o)), FullText(o))
  }

  function Entries(items: seq<Item>): seq<Printing> {
    if items == [] then []
    else if items[0].Entry? then [items[0].option] + Entries(items[1..])
    else Entries(items[1..])
  }

  function Reads(os: seq<Printing>): seq<HelpOption> {
    if os == [] then [] else [Read(os[0])] + Reads(os[1..])
  }

  function Meanings(os: seq<Printing>): seq<HelpOption> {
    if os == [] then [] else [Meaning(os[0])] + Meanings(os[1..])
  }

  // ---------- Reading item by item ----------

  function OpenIndent(p: Parse): Option<nat> {
    match p.current
    case None => None
    case Some(block) => Some(block.indent)
  }

  predicate Deeper(open: Option<nat>, o: Printing) {
    open.Some? && Indent(o) > open.value
  }

  // The lines go to the open option, if there is one.
  function Continued(p: Parse, chunks: seq<Chunk>): Parse {
    match p.current
    case None => p
    case Some(block) =>
      p.(current := Some(block.(option := block.option.(text := TextFrom(block.option.text, chunks)))))
  }

  function ReadItem(p: Parse, item: Item): Parse {
    match item
    case Blank(_) => Close(p)
    case Prose(line) => Continued(p, [line])
    case Entry(o) =>
      if Deeper(OpenIndent(p), o) then Continued(p, [o.first] + o.rest)
      else Parse(Close(p).options, Some(Block(Indent(o), Read(o))))
  }

  function ReadItems(p: Parse, items: seq<Item>): Parse
    decreases |items|
  {
    if items == [] then p else ReadItems(ReadItem(p, items[0]), items[1..])
  }

  lemma {:induction false} DropCommasPrefix(token: string)
    ensures DropCommas(token) <= token
    decreases |token|
  {
    if token != "" && token[|token| - 1] == ',' {
      DropCommasPrefix(token[..|token| - 1]);
    }
  }

  lemma OptionFlagsOf(text: string)
    requires Trimmed(text)
    ensures OptionFlags(text) == if FlagsOf(text) == [] then None else Some(FlagsOf(text))
  {
    assert TrimStart(text) == text;
    DropCommasPrefix(FirstWord(text));
  }

  lemma LineParses(c: Chunk)
    requires GoodChunk(c)
    ensures Trim(Line(c)) == c.text
    ensures Line(c)[..|Line(c)| - |TrimStart(Line(c))|] == c.pad
  {
    TrimStartDropsPad(c.pad, c.text);
  }

  lemma ChunkStep(p: Parse, c: Chunk)
    requires GoodChunk(c)
    ensures
      StepLine(p, Line(c))
      == if FlagsOf(c.text) != [] && !(p.current.Some? && ByteLen(c.pad) > p.current.value.indent)
         then Parse(Close(p).options, Some(Block(ByteLen(c.pad), HelpOption(FlagsOf(c.text), c.text))))
         else Continued(p, [c])
  {
    LineParses(c);
    OptionFlagsOf(c.text);
    if p.current.Some? {
      TextFromOne(p.current.value.option.text, c, []);
    }
  }

  lemma BlankLine(p: Parse, line: string)
    requires AllSpace(line)
    ensures StepLine(p, line) == Close(p)
  {
    TrimStartDropsPad(line, "");
    assert line + "" == line;
  }

  lemma {:induction false} ParseAppends(p: Parse, a: seq<string>, b: seq<string>)
    ensures ParseLines(p, a + b) == ParseLines(ParseLines(p, a), b)
    decreases |a|
  {
    if a == [] {
      assert a + b == b;
    } else {
      assert (a + b)[1..] == a[1..] + b;
      ParseAppends(StepLine(p, a[0]), a[1..], b);
    }
  }

  // Lines deeper than the open option all go to it.
  lemma {:induction false} DeeperLinesJoin(p: Parse, chunks: seq<Chunk>)
    requires p.current.Some?
    requires forall k :: 0 <= k < |chunks| ==> GoodChunk(chunks[k]) && ByteLen(chunks[k].pad) > p.current.value.indent
    ensures ParseLines(p, ChunkLines(chunks)) == Continued(p, chunks)
    decreases |chunks|
  {
    hide GoodChunk, ByteLen, StepLine, FlagsOf;
    if chunks != [] {
      ChunkStep(p, chunks[0]);
      TextFromOne(p.current.value.option.text, chunks[0], chunks[1..]);
      DeeperLinesJoin(Continued(p, [chunks[0]]), chunks[1..]);
    }
  }

  lemma ItemIsRead(p: Parse, item: Item)
    requires Printed(item)
    ensures ParseLines(p, ItemLines(item)) == ReadItem(p, item)
  {
    hide GoodChunk, ByteLen, StepLine, FlagsOf;
    match item
    case Blank(pad) =>
      BlankLine(p, pad);
      assert [pad][1..] == [];
    case Prose(line) =>
      ChunkStep(p, line);
      assert [Line(line)][1..] == [];
    case Entry(o) =>
      ChunkStep(p, o.first);
      var q := StepLine(p, Line(o.first));
      assert ([Line(o.first)] + ChunkLines(o.rest))[1..] == ChunkLines(o.rest);
      if p.current.Some? {
        TextFromOne(p.current.value.option.text, o.first, o.rest);
      }
      DeeperLinesJoin(q, o.rest);
  }

  lemma {:induction false} ItemsAreRead(p: Parse, items: seq<Item>)
    requires AllPrinted(items)
    ensures ParseLines(p, TextLines(items)) == ReadItems(p, items)
    decreases |items|
  {
    hide ItemLines, Printed, ReadItem, StepLine;
    if items != [] {
      ParseAppends(p, ItemLines(items[0]), TextLines(items[1..]));
      ItemIsRead(p, items[0]);
      ItemsAreRead(ReadItem(p, items[0]), items[1..]);
    }
  }

  // ---------- Lines and text ----------

  lemma {:induction false} LineEndAfter(line: string, rest: string)
    requires '\n' !in line
    ensures LineEnd(line + "\n" + rest) == |line|
    decreases |line|
  {
    if line == "" {
      assert line + "\n" + rest == "\n" + rest;
    } else {
      assert (line + "\n" + rest)[1..] == line[1..] + "\n" + rest;
      LineEndAfter(line[1..], rest);
    }
  }

  lemma {:induction false} LinesOfUnlines(lines: seq<string>)
    requires forall k :: 0 <= k < |lines| ==> '\n' !in lines[k]
    ensures Lines(Unlines(lines)) == lines
    decreases |lines|
  {
    if lines != [] {
      var rest := Unlines(lines[1..]);
      LineEndAfter(lines[0], rest);
      LinesOfUnlines(lines[1..]);
      assert Unlines(lines)[..|lines[0]|] == lines[0] && Unlines(lines)[|lines[0]| + 1..] == rest;
    }
  }

  lemma {:induction false} ChunkLinesHaveNoBreak(chunks: seq<Chunk>)
    requires forall k :: 0 <= k < |chunks| ==> GoodChunk(chunks[k])
    ensures forall k :: 0 <= k < |ChunkLines(chunks)| ==> '\n' !in ChunkLines(chunks)[k]
    decreases |chunks|
  {
    if chunks != [] {
      ChunkLinesHaveNoBreak(chunks[1..]);
    }
  }

  lemma {:induction false} TextLinesHaveNoBreak(items: seq<Item>)
    requires AllPrinted(items)
    ensures forall k :: 0 <= k < |TextLines(items)| ==> '\n' !in TextLines(items)[k]
    decreases |items|
  {
    if items != [] {
      if items[0].Entry? {
        ChunkLinesHaveNoBreak(items[0].option.rest);
      }
      assert Printed(items[0]);
      TextLinesHaveNoBreak(items[1..]);
    }
  }

  // What any text made of such items reads back as.
  lemma TextIsRead(items: seq<Item>)
    requires AllPrinted(items)
    ensures OptionsOf(Lines(TextOf(items))) == Close(ReadItems(Parse([], None), items)).options
  {
    hide AllPrinted, ReadItems, TextLines, Unlines;
    TextLinesHaveNoBreak(items);
    LinesOfUnlines(TextLines(items));
    ItemsAreRead(Parse([], None), items);
  }

  // ---------- When the options read back ----------

  function OpenAfter(open: Option<nat>, item: Item): Option<nat> {
    match item
    case Blank(_) => None
    case Prose(_) => open
    case Entry(o) => if Deeper(open, o) then open else Some(Indent(o))
  }

  // Below an option, as long as no blank line has come, there is no line that is no
  // option, and no option stands deeper.
  predicate WellSpaced(open: Option<nat>, items: seq<Item>)
    decreases |items|
  {
    items == [] ||
    (&& (items[0].Prose? ==> open.None?)
     && (items[0].Entry? ==> !Deeper(open, items[0].option))
     && WellSpaced(OpenAfter(open, items[0]), items[1..]))
  }

  // How much text there is in the blocks.
  function TextLength(options: seq<HelpOption>): nat {
    if options == [] then 0 else TextLength(options[..|options| - 1]) + |options[|options| - 1].text|
  }

  lemma TextLengthGrows(options: seq<HelpOption>, option: HelpOption)
    ensures TextLength(options + [option]) == TextLength(options) + |option.text|
  {
    assert (options + [option])[..|options|] == options;
  }

  lemma {:induction false} TextFromAppends(before: string, text: string, chunks: seq<Chunk>)
    ensures TextFrom(before + " " + text, chunks) == before + " " + TextFrom(text, chunks)
    decreases |chunks|
  {
    if chunks != [] {
      assert before + " " + text + " " + chunks[0].text == before + " " + (text + " " + chunks[0].text);
      TextFromAppends(before, text + " " + chunks[0].text, chunks[1..]);
    }
  }

  function TotalText(os: seq<Printing>): nat {
    if os == [] then 0 else |FullText(os[0])| + TotalText(os[1..])
  }

  lemma {:induction false} ReadsLength(options: seq<HelpOption>, os: seq<Printing>)
    ensures TextLength(options + Reads(os)) == TextLength(options) + TotalText(os)
    ensures TextLength(options + Meanings(os)) == TextLength(options) + TotalText(os)
    decreases |os|
  {
    hide TextLength, Read, Meaning, FullText;
    if os == [] {
      assert options + Reads(os) == options && options + Meanings(os) == options;
    } else {
      SameLength(options, os[0]);
      ReadsLength(options + [Read(os[0])], os[1..]);
      ReadsLength(options + [Meaning(os[0])], os[1..]);
      Regroup(options, Read(os[0]), Reads(os[1..]));
      Regroup(options, Meaning(os[0]), Meanings(os[1..]));
    }
  }

  lemma SameLength(options: seq<HelpOption>, o: Printing)
    ensures TextLength(options + [Read(o)]) == TextLength(options) + |FullText(o)|
    ensures TextLength(options + [Meaning(o)]) == TextLength(options) + |FullText(o)|
  {
    TextLengthGrows(options, Read(o));
    TextLengthGrows(options, Meaning(o));
  }

  lemma Regroup(a: seq<HelpOption>, x: HelpOption, b: seq<HelpOption>)
    ensures a + [x] + b == a + ([x] + b)
  {
  }

  lemma ItemLength(p: Parse, item: Item)
    requires Printed(item)
    ensures
      var before, after := TextLength(Close(p).options), TextLength(Close(ReadItem(p, item)).options);
      match item
      case Blank(_) => after == before
      case Prose(_) => if p.current.None? then after == before else after > before
      case Entry(o) =>
        if Deeper(OpenIndent(p), o) then after > before + |FullText(o)| else after == before + |FullText(o)|
    ensures OpenIndent(ReadItem(p, item)) == OpenAfter(OpenIndent(p), item)
  {
    hide TextLength, Printed, FlagsOf, ByteLen;
    if p.current.Some? {
      TextLengthGrows(p.options, p.current.value.option);
      var q := ReadItem(p, item);
      match item
      case Blank(_) =>
      case Prose(line) =>
        TextFromOne(p.current.value.option.text, line, []);
        TextLengthGrows(p.options, q.current.value.option);
      case Entry(o) =>
        TextFromOne(p.current.value.option.text, o.first, o.rest);
        TextFromAppends(p.current.value.option.text, o.first.text, o.rest);
        TextLengthGrows(q.options, q.current.value.option);
    } else if item.Entry? {
      TextLengthGrows(p.options, Read(item.option));
    }
  }

  lemma Noneless(p: Parse)
    ensures p.current.None? <==> OpenIndent(p).None?
  {
  }

  // No text is ever lost, and some ends up in an option it does not belong to exactly
  // when the items are not well spaced.
  lemma {:induction false} TextIsCounted(p: Parse, items: seq<Item>)
    requires AllPrinted(items)
    ensures
      var expected := TextLength(Close(p).options) + TotalText(Entries(items));
      var found := TextLength(Close(ReadItems(p, items)).options);
      if WellSpaced(OpenIndent(p), items) then found == expected else found > expected
    decreases |items|
  {
    hide TextLength, Printed, ReadItem, Close, OpenIndent, FullText;
    if items != [] {
      Noneless(p);
      ItemLength(p, items[0]);
      TextIsCounted(ReadItem(p, items[0]), items[1..]);
    }
  }

  lemma {:induction false} WellSpacedIsRead(p: Parse, items: seq<Item>)
    requires WellSpaced(OpenIndent(p), items)
    ensures Close(ReadItems(p, items)).options == Close(p).options + Reads(Entries(items))
    decreases |items|
  {
    hide Read, Indent, TextFrom;
    if items != [] {
      WellSpacedIsRead(ReadItem(p, items[0]), items[1..]);
      if items[0].Entry? {
        var o := items[0].option;
        Regroup(Close(p).options, Read(o), Reads(Entries(items[1..])));
      }
    }
  }

  // The line of the option holds every flag the option begins with.
  predicate FlagsFit(o: Printing) {
    FlagsOf(o.first.text) == FlagsOf(FullText(o))
  }

  // Reading back is exact: the blocks are the options, each with the flags on its line
  // and all of its text, exactly when the items are well spaced; and they are what the
  // options would be on a page of any width exactly when, besides, each option's line
  // holds all of its flags.
  lemma ReadingBackIsExact(items: seq<Item>)
    requires AllPrinted(items)
    ensures OptionsOf(Lines(TextOf(items))) == Reads(Entries(items)) <==> WellSpaced(None, items)
    ensures OptionsOf(Lines(TextOf(items))) == Meanings(Entries(items)) <==>
              WellSpaced(None, items) && forall o :: o in Entries(items) ==> FlagsFit(o)
  {
    hide AllPrinted, ReadItems, TextOf, Lines, OptionsOf, TextLength, Reads, Meanings, Entries, FlagsFit, TotalText;
    var start, os := Parse([], None), Entries(items);
    TextIsRead(items);
    TextIsCounted(start, items);
    ReadsLength([], os);
    assert [] + Reads(os) == Reads(os) && [] + Meanings(os) == Meanings(os);
    if WellSpaced(None, items) {
      WellSpacedIsRead(start, items);
      ReadsAreMeanings(os);
    }
  }

  lemma {:induction false} ReadsAreMeanings(os: seq<Printing>)
    ensures Reads(os) == Meanings(os) <==> forall o :: o in os ==> FlagsFit(o)
    decreases |os|
  {
    hide FlagsFit, Read, Meaning;
    if os != [] {
      var rest := os[1..];
      ReadsAreMeanings(rest);
      assert os == [os[0]] + rest;
      ReadIsMeaning(os[0]);
      HeadAndTail(Read(os[0]), Reads(rest), Meaning(os[0]), Meanings(rest));
    }
  }

  lemma ReadIsMeaning(o: Printing)
    ensures Read(o) == Meaning(o) <==> FlagsFit(o)
  {
  }

  lemma HeadAndTail(x: HelpOption, a: seq<HelpOption>, y: HelpOption, b: seq<HelpOption>)
    ensures [x] + a == [y] + b <==> x == y && a == b
  {
    if [x] + a == [y] + b {
      assert ([x] + a)[0] == ([y] + b)[0] && ([x] + a)[1..] == a && ([y] + b)[1..] == b;
    }
  }

  // ---------- Widths ----------

  lemma {:induction false} LeadingFlagsAppend(a: seq<string>, b: seq<string>)
    ensures LeadingFlags(a + b) == LeadingFlags(a) + if |LeadingFlags(a)| == |a| then LeadingFlags(b) else []
    decreases |a|
  {
    if a == [] {
      assert a + b == b;
    } else {
      assert (a + b)[1..] == a[1..] + b;
      LeadingFlagsAppend(a[1..], b);
    }
  }

  lemma {:induction false} LeadingFlagsCount(tokens: seq<string>)
    ensures |LeadingFlags(tokens)| <= |tokens|
    decreases |tokens|
  {
    if tokens != [] {
      LeadingFlagsCount(tokens[1..]);
    }
  }

  // Further lines change the flags a text begins with exactly when it is all flags and
  // the first of them begins with one.
  lemma {:induction false} FlagsOfTextFrom(text: string, chunks: seq<Chunk>)
    requires forall k :: 0 <= k < |chunks| ==> GoodChunk(chunks[k])
    ensures
      FlagsOf(TextFrom(text, chunks)) == FlagsOf(text) <==>
      |FlagsOf(text)| < |SplitWhitespace(text)| || chunks == [] || FlagsOf(chunks[0].text) == []
    ensures |FlagsOf(TextFrom(text, chunks))| >= |FlagsOf(text)|
    ensures |FlagsOf(text)| < |SplitWhitespace(text)| ==> FlagsOf(TextFrom(text, chunks)) == FlagsOf(text)
    decreases |chunks|
  {
    LeadingFlagsCount(SplitWhitespace(text));
    if chunks != [] {
      var more := chunks[0].text;
      SplitAppends(text, more);
      LeadingFlagsAppend(SplitWhitespace(text), SplitWhitespace(more));
      assert SplitWhitespace(more) != [] by {
        assert GoodChunk(chunks[0]) && TrimStart(more) == more;
      }
      FlagsOfTextFrom(text + " " + more, chunks[1..]);
    }
  }

  // When a printing shows all the flags: unless its first line is nothing but flags and
  // its second begins with one.
  lemma FlagsFitWhen(o: Printing)
    requires Printed(Entry(o))
    ensures FlagsFit(o) <==>
              || |FlagsOf(o.first.text)| < |SplitWhitespace(o.first.text)|
              || o.rest == []
              || FlagsOf(o.rest[0].text) == []
  {
    FlagsOfTextFrom(o.first.text, o.rest);
  }

  // The same options, whatever else the two texts hold, and wherever the lines end.
  predicate SameTexts(left: seq<Printing>, right: seq<Printing>) {
    |left| == |right| && forall k :: 0 <= k < |left| ==> FullText(left[k]) == FullText(right[k])
  }

  lemma {:induction false} ReadsAt(os: seq<Printing>)
    ensures |Reads(os)| == |os| && forall k :: 0 <= k < |os| ==> Reads(os)[k] == Read(os[k])
    decreases |os|
  {
    if os != [] {
      ReadsAt(os[1..]);
    }
  }

  // Two printings of the same options read back as the same blocks exactly when they
  // show the same flags on each option's own line; so they do whenever each shows all
  // of them there.
  lemma {:induction false} WrapIndependence(left: seq<Item>, right: seq<Item>)
    requires AllPrinted(left) && WellSpaced(None, left) && AllPrinted(right) && WellSpaced(None, right)
    requires SameTexts(Entries(left), Entries(right))
    ensures
      var ls, rs := Entries(left), Entries(right);
      OptionsOf(Lines(TextOf(left))) == OptionsOf(Lines(TextOf(right))) <==>
      forall k :: 0 <= k < |ls| ==> FlagsOf(ls[k].first.text) == FlagsOf(rs[k].first.text)
    ensures
      (forall o :: o in Entries(left) + Entries(right) ==> FlagsFit(o)) ==>
        OptionsOf(Lines(TextOf(left))) == OptionsOf(Lines(TextOf(right)))
  {
    hide AllPrinted, WellSpaced, TextOf, Lines, OptionsOf, Reads, Entries, FullText, FlagsOf;
    ReadingBackIsExact(left);
    ReadingBackIsExact(right);
    var ls, rs := Entries(left), Entries(right);
    ReadsAt(ls);
    ReadsAt(rs);
    assert forall k :: 0 <= k < |ls| ==> (Read(ls[k]) == Read(rs[k]) <==> Reads(ls)[k] == Reads(rs)[k]);
    if forall o :: o in ls + rs ==> FlagsFit(o) {
      assert forall k :: 0 <= k < |ls| ==> ls[k] in ls + rs && rs[k] in ls + rs;
    }
  }

  // And so is the report of flags that need another mode, for any arguments.
  lemma {:induction false} ReportIsWrapIndependent(
      left: seq<Item>, right: seq<Item>, args: seq<string>, values: seq<string>)
    requires AllPrinted(left) && WellSpaced(None, left) && AllPrinted(right) && WellSpaced(None, right)
    requires SameTexts(Entries(left), Entries(right))
    requires
      var ls, rs := Entries(left), Entries(right);
      forall k :: 0 <= k < |ls| ==> FlagsOf(ls[k].first.text) == FlagsOf(rs[k].first.text)
    ensures ModeRestrictedFlags(TextOf(left), args, values) == ModeRestrictedFlags(TextOf(right), args, values)
  {
    hide AllPrinted, WellSpaced, TextOf, Lines, OptionsOf, Entries, SameTexts, FlagsOf, Restricted;
    WrapIndependence(left, right);
  }

  // A flag that stands for itself.
  predicate PlainFlag(flag: string) {
    Word(flag) && LooksLikeFlag(flag) && DropCommas(flag) == flag && FlagName(flag) == flag
  }

  // The width does change the blocks of an option whose description begins with a dash:
  // wrapped right after the flag it is a description, on one line it declares a flag.
  lemma WidthChangesFlags(flag: string, other: string, more: string)
    requires PlainFlag(flag) && PlainFlag(other) && Trimmed(more) && FlagsOf(more) == []
    ensures
      var described := other + " " + more;
      var narrow := [Entry(Printing(Chunk("", flag), [Chunk(" ", described)]))];
      var wide := [Entry(Printing(Chunk("", flag + " " + described), []))];
      && AllPrinted(narrow) && WellSpaced(None, narrow) && AllPrinted(wide) && WellSpaced(None, wide)
      && SameTexts(Entries(narrow), Entries(wide))
      && OptionsOf(Lines(TextOf(narrow))) == [HelpOption([flag], flag + " " + described)]
      && OptionsOf(Lines(TextOf(wide))) == [HelpOption([flag, other], flag + " " + described)]
  {
    hide FlagsOf, TextOf, Lines, OptionsOf, AllPrinted, WellSpaced, Entries, PlainFlag, Trimmed, Pad;
    var described := other + " " + more;
    FlagAndMore(flag, other, more);
    SpaceIsPad();
    PlainIsTrimmed(flag);
    PlainIsTrimmed(other);
    TrimmedJoin(other, more);
    TrimmedJoin(flag, described);
    OneEntry(Printing(Chunk("", flag), [Chunk(" ", described)]));
    OneEntry(Printing(Chunk("", flag + " " + described), []));
    TextFromOne(flag, Chunk(" ", described), []);
  }

  lemma TrimmedJoin(a: string, b: string)
    requires Trimmed(a) && Trimmed(b)
    ensures Trimmed(a + " " + b)
  {
  }

  lemma PlainIsTrimmed(flag: string)
    requires PlainFlag(flag)
    ensures Trimmed(flag) && FlagsOf(flag) == [flag]
  {
    OneWord(flag);
    assert !IsSpace(flag[0]) && !IsSpace(flag[|flag| - 1]);
    assert forall k :: 0 <= k < |flag| ==> flag[k] != '\n';
  }

  lemma SpaceIsPad()
    ensures Pad("") && Pad(" ") && ByteLen("") < ByteLen(" ")
  {
    assert " "[1..] == "";
  }

  lemma FlagAndMore(flag: string, other: string, more: string)
    requires PlainFlag(flag) && PlainFlag(other) && Trimmed(more) && FlagsOf(more) == []
    ensures FlagsOf(flag) == [flag] && FlagsOf(flag + " " + (other + " " + more)) == [flag, other]
  {
    OneWord(flag);
    OneWord(other);
    SplitAppends(other, more);
    SplitAppends(flag, other + " " + more);
    LeadingFlagsAppend([other], SplitWhitespace(more));
    LeadingFlagsAppend([flag], [other] + SplitWhitespace(more));
  }

  lemma OneWord(flag: string)
    requires PlainFlag(flag)
    ensures SplitWhitespace(flag) == [flag] && LeadingFlags([flag]) == [flag]
  {
    SplitOne(flag, "");
    assert flag + "" == flag && [flag][1..] == [];
    assert LeadingFlags([]) == [];
  }

  lemma OneEntry(o: Printing)
    requires Printed(Entry(o))
    ensures AllPrinted([Entry(o)]) && WellSpaced(None, [Entry(o)]) && Entries([Entry(o)]) == [o]
    ensures OptionsOf(Lines(TextOf([Entry(o)]))) == [Read(o)]
  {
    hide Printed, Read, TextOf, Lines, OptionsOf;
    assert [Entry(o)][1..] == [] && [o][1..] == [];
    assert Entries([]) == [] && Reads([]) == [];
    ReadingBackIsExact([Entry(o)]);
  }

  // ---------- What goes wrong ----------

  lemma {:induction false} ReadsInTwo(p: Parse, a: seq<Item>, b: seq<Item>)
    ensures ReadItems(p, a + b) == ReadItems(ReadItems(p, a), b)
    decreases |a|
  {
    if a == [] {
      assert a + b == b;
    } else {
      assert (a + b)[1..] == a[1..] + b;
      ReadsInTwo(ReadItem(p, a[0]), a[1..], b);
    }
  }

  // The state after well-spaced items that end with an option: it is the open one.
  lemma {:induction false} ReadsUpTo(p: Parse, before: seq<Item>, o: Printing)
    requires WellSpaced(OpenIndent(p), before + [Entry(o)])
    ensures ReadItems(p, before + [Entry(o)])
         == Parse(Close(p).options + Reads(Entries(before)), Some(Block(Indent(o), Read(o))))
    decreases |before|
  {
    hide Read, Indent, TextFrom;
    var items := before + [Entry(o)];
    if before == [] {
      assert items[1..] == [];
    } else {
      assert items[1..] == before[1..] + [Entry(o)] && items[0] == before[0];
      ReadsUpTo(ReadItem(p, before[0]), before[1..], o);
      if before[0].Entry? {
        Regroup(Close(p).options, Read(before[0].option), Reads(Entries(before[1..])));
      }
    }
  }

  // What happens below an option when the items are not well spaced, wherever in a text:
  // an option that stands deeper is read as description, its flags included.
  lemma DeeperOptionIsSwallowed(before: seq<Item>, above: Printing, below: Printing)
    requires AllPrinted(before + [Entry(above)]) && WellSpaced(None, before + [Entry(above)])
    requires Printed(Entry(below)) && Indent(below) > Indent(above)
    ensures OptionsOf(Lines(TextOf(before + [Entry(above)] + [Entry(below)])))
         == Reads(Entries(before)) + [HelpOption(Read(above).flags, FullText(above) + " " + FullText(below))]
  {
    hide FlagsOf, Printed, TextOf, Lines, OptionsOf, TextFrom;
    LastItemIsRead(before, above, Entry(below));
    ContinuedText(FullText(above), below);
  }

  lemma ContinuedText(text: string, below: Printing)
    ensures TextFrom(text, [below.first] + below.rest) == text + " " + FullText(below)
  {
    TextFromOne(text, below.first, below.rest);
    TextFromAppends(text, below.first.text, below.rest);
  }

  // And a line that is no option is, at any indent: a heading or a footer too.
  lemma FooterIsSwallowed(before: seq<Item>, above: Printing, footer: Chunk)
    requires AllPrinted(before + [Entry(above)]) && WellSpaced(None, before + [Entry(above)])
    requires Printed(Prose(footer))
    ensures OptionsOf(Lines(TextOf(before + [Entry(above)] + [Prose(footer)])))
         == Reads(Entries(before)) + [HelpOption(Read(above).flags, FullText(above) + " " + footer.text)]
  {
    hide FlagsOf, Printed, TextOf, Lines, OptionsOf;
    LastItemIsRead(before, above, Prose(footer));
    TextFromOne(FullText(above), footer, []);
  }

  lemma LastItemIsRead(before: seq<Item>, above: Printing, last: Item)
    requires AllPrinted(before + [Entry(above)]) && WellSpaced(None, before + [Entry(above)]) && Printed(last)
    ensures OptionsOf(Lines(TextOf(before + [Entry(above)] + [last])))
         == Close(ReadItem(Parse(Reads(Entries(before)), Some(Block(Indent(above), Read(above)))), last)).options
  {
    hide Printed, TextOf, Lines, OptionsOf, ReadItem;
    var items, start := before + [Entry(above)], Parse([], None);
    assert forall k :: 0 <= k < |items + [last]| ==> (items + [last])[k] == if k < |items| then items[k] else last;
    TextIsRead(items + [last]);
    ReadsInTwo(start, items, [last]);
    ReadsUpTo(start, before, above);
    assert [last][1..] == [] && [] + Reads(Entries(before)) == Reads(Entries(before));
  }
}
