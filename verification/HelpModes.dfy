// Modes spelled with a capital. A mode is looked for in lower-cased text, and compared
// with the flags in use as they are spelled.
module HelpModes {
  import opened HelpLayout
  import opened HelpText
  import opened NameLists
  import opened Text
  import opened Wrappers

  // The mode as the text of the option spells it.
  function SpelledMode(option: HelpOption): Option<string> {
    match PhraseEnd(ToLower(option.text), RESTRICTION_PHRASES)
    case None => None
    case Some(start) => ClauseFlag(SplitWhitespace(option.text[start..]))
  }

  function Lowered(mode: Option<string>): Option<string> {
    if mode.None? then None else Some(ToLower(mode.value))
  }

  function LowerAll(tokens: seq<string>): seq<string> {
    if tokens == [] then [] else [ToLower(tokens[0])] + LowerAll(tokens[1..])
  }

  // ---------- Lower-casing commutes with reading ----------

  lemma {:induction false} ToLowerAt(s: string)
    ensures |ToLower(s)| == |s| && forall k :: 0 <= k < |s| ==> ToLower(s)[k] == Lower(s[k])
    decreases |s|
  {
    if s != "" {
      ToLowerAt(s[1..]);
    }
  }

  predicate NoCapitals(s: string) {
    forall k :: 0 <= k < |s| ==> !('A' <= s[k] <= 'Z')
  }

  lemma {:induction false} LowerAlready(s: string)
    requires NoCapitals(s)
    ensures ToLower(s) == s
    decreases |s|
  {
    if s != "" {
      LowerAlready(s[1..]);
    }
  }

  lemma {:induction false} LowerAppends(a: string, b: string)
    ensures ToLower(a + b) == ToLower(a) + ToLower(b)
    decreases |a|
  {
    if a == "" {
      assert a + b == b;
    } else {
      assert (a + b)[1..] == a[1..] + b;
      LowerAppends(a[1..], b);
    }
  }

  lemma LowerIsSame(s: string)
    ensures ToLower(s) == s <==> NoCapitals(s)
  {
    ToLowerAt(s);
    if NoCapitals(s) {
      LowerAlready(s);
    }
  }

  lemma LowerSlice(s: string, i: nat)
    requires i <= |s|
    ensures ToLower(s)[i..] == ToLower(s[i..]) && ToLower(s)[..i] == ToLower(s[..i])
  {
    hide ToLower;
    LowerAppends(s[..i], s[i..]);
    assert s == s[..i] + s[i..];
  }

  lemma {:induction false} TrimStartLower(s: string)
    ensures TrimStart(ToLower(s)) == ToLower(TrimStart(s))
    decreases |s|
  {
    if s != "" {
      TrimStartLower(s[1..]);
    }
  }

  lemma {:induction false} FirstWordLower(s: string)
    ensures FirstWord(ToLower(s)) == ToLower(FirstWord(s))
    decreases |s|
  {
    if s != "" && !IsSpace(s[0]) {
      FirstWordLower(s[1..]);
    }
  }

  lemma {:induction false} SplitLower(s: string)
    ensures SplitWhitespace(ToLower(s)) == LowerAll(SplitWhitespace(s))
    decreases |s|
  {
    TrimStartLower(s);
    var t := TrimStart(s);
    if t != "" {
      FirstWordLower(t);
      LowerSlice(t, |FirstWord(t)|);
      SplitLower(t[|FirstWord(t)|..]);
    }
  }

  lemma {:induction false} DropClosersLower(token: string)
    ensures DropClosers(ToLower(token)) == ToLower(DropClosers(token))
    decreases |token|
  {
    ToLowerAt(token);
    if token != "" {
      LowerSlice(token, |token| - 1);
      DropClosersLower(token[..|token| - 1]);
    }
  }

  lemma FlagLower(token: string)
    ensures LooksLikeFlag(ToLower(token)) <==> LooksLikeFlag(token)
  {
    ToLowerAt(token);
    if |token| == 2 {
      assert token == [token[0], token[1]] && ToLower(token) == [Lower(token[0]), Lower(token[1])];
    }
  }

  lemma {:induction false} ClauseLower(tokens: seq<string>)
    ensures ClauseFlag(LowerAll(tokens)) == Lowered(ClauseFlag(tokens))
    decreases |tokens|
  {
    if tokens != [] {
      ToLowerAt(tokens[0]);
      DropClosersLower(tokens[0]);
      FlagLower(DropClosers(tokens[0]));
      ClauseLower(tokens[1..]);
    }
  }

  // ---------- What a requirement is ----------

  // The mode asked for is the one the text spells, in lower case.
  lemma RequirementIsLowered(option: HelpOption)
    ensures ModeRequirement(option) == Lowered(SpelledMode(option))
  {
    match PhraseEnd(ToLower(option.text), RESTRICTION_PHRASES)
    case None =>
    case Some(start) =>
      LowerSlice(option.text, start);
      SplitLower(option.text[start..]);
      ClauseLower(SplitWhitespace(option.text[start..]));
  }

  // So it is never spelled with a capital, and a flag in use that is never satisfies it.
  lemma CapitalNeverSatisfies(option: HelpOption, flag: string)
    requires !NoCapitals(flag)
    ensures ModeRequirement(option) != Some(flag)
  {
    RequirementIsLowered(option);
    if SpelledMode(option).Some? {
      ToLowerAt(SpelledMode(option).value);
    }
  }

  // What is reported of a flag whose option says it only works with a mode: nothing
  // exactly when the lower-cased mode is in use.
  lemma LoweredModeSatisfies(
      options: seq<HelpOption>, used: seq<string>, flag: string, option: HelpOption, mode: string)
    requires OptionFor(options, flag) == Some(option) && SpelledMode(option) == Some(mode)
    ensures MissingMode(options, used, flag) == if ToLower(mode) in used then None else Some(ToLower(mode))
  {
    RequirementIsLowered(option);
  }

  // So the report is right, whatever flags are in use, exactly when the mode has no
  // capital in its name.
  lemma CapitalModeIsReported(options: seq<HelpOption>, flag: string, option: HelpOption, mode: string)
    requires OptionFor(options, flag) == Some(option) && SpelledMode(option) == Some(mode)
    ensures (forall used :: MissingMode(options, used, flag).None? <==> mode in used) <==> NoCapitals(mode)
  {
    hide MissingMode, ToLower, NoCapitals, SpelledMode, OptionFor;
    forall used ensures MissingMode(options, used, flag).None? <==> ToLower(mode) in used {
      LoweredModeSatisfies(options, used, flag, option, mode);
    }
    LowerIsSame(mode);
    if !NoCapitals(mode) {
      assert MissingMode(options, [mode], flag).Some?;
    }
  }

  // ---------- Texts in which it happens ----------

  predicate NoneOf(s: string, letters: set<char>) {
    forall k :: 0 <= k < |s| ==> s[k] !in letters
  }

  // What comes before the phrase must not hold the letters that phrases begin with.
  predicate Quiet(s: string) {
    NoneOf(s, {'o', 'c', 'O', 'C'})
  }

  // Phrases as the four in use are: long enough, and begun by one of those letters.
  predicate LikePhrases(phrases: seq<string>) {
    forall k :: 0 <= k < |phrases| ==> |phrases[k]| >= 15 && phrases[k][0] in {'o', 'c'}
  }

  lemma RestrictionPhrases()
    ensures LikePhrases(RESTRICTION_PHRASES) && RESTRICTION_PHRASES[0] == "only works with"
    ensures NoCapitals(RESTRICTION_PHRASES[0]) && |RESTRICTION_PHRASES[0]| == 15
  {
  }

  lemma PhraseEndsAfter(lowered: string, phrases: seq<string>, quiet: nat)
    requires quiet <= |lowered| && forall k :: 0 <= k < quiet ==> lowered[k] !in {'o', 'c'}
    requires LikePhrases(phrases) && phrases != [] && |phrases[0]| == 15 && OccursAt(lowered, phrases[0], quiet)
    ensures PhraseEnd(lowered, phrases) == Some(quiet + 15)
  {
    hide PhraseEnd, OccursAt;
    PhraseEndIsEarliest(lowered, phrases);
    var end := PhraseEnd(lowered, phrases).value;
    assert end <= quiet + |phrases[0]|;
    var k, at: nat :| 0 <= k < |phrases| && OccursAt(lowered, phrases[k], at) && end == at + |phrases[k]|;
    PhraseLetter(lowered, phrases[k], at);
  }

  lemma PhraseLetter(lowered: string, phrase: string, at: nat)
    requires phrase != "" && OccursAt(lowered, phrase, at)
    ensures at < |lowered| && lowered[at] == phrase[0]
  {
    assert lowered[at..at + |phrase|][0] == lowered[at];
  }

  predicate PlainMode(mode: string) {
    PlainFlag(mode) && DropClosers(mode) == mode
  }

  function OnlyWorksWith(mode: string): string {
    "only works with " + mode
  }

  lemma ModeIsSpelled(flags: seq<string>, start: string, mode: string)
    requires Quiet(start) && PlainMode(mode)
    ensures SpelledMode(HelpOption(flags, start + " " + OnlyWorksWith(mode))) == Some(mode)
  {
    hide PhraseEnd, DropClosers, LooksLikeFlag, DropCommas, FlagName, SplitWhitespace, ToLower, ClauseFlag, PlainMode;
    var text, quiet := start + " " + OnlyWorksWith(mode), |start| + 1;
    assert text[quiet..quiet + 15] == "only works with";
    assert text[..quiet] == start + " ";
    RestrictionPhrases();
    PhraseEndOf(text, RESTRICTION_PHRASES, quiet);
    assert text[quiet + 15..] == " " + mode;
    OneWordAfterSpace(mode);
  }

  lemma PhraseEndOf(text: string, phrases: seq<string>, quiet: nat)
    requires LikePhrases(phrases) && phrases != [] && |phrases[0]| == 15 && NoCapitals(phrases[0])
    requires quiet + 15 <= |text| && Quiet(text[..quiet]) && text[quiet..quiet + 15] == phrases[0]
    ensures PhraseEnd(ToLower(text), phrases) == Some(quiet + 15)
  {
    hide PhraseEnd, ToLower;
    LowerSlice(text, quiet);
    LowerSlice(text[quiet..], 15);
    LowerAlready(phrases[0]);
    assert text[quiet..][..15] == text[quiet..quiet + 15];
    assert ToLower(text)[quiet..][..15] == ToLower(text)[quiet..quiet + 15];
    QuietLowered(text, quiet);
    PhraseEndsAfter(ToLower(text), phrases, quiet);
  }

  lemma QuietLowered(text: string, quiet: nat)
    requires quiet <= |text| && Quiet(text[..quiet])
    ensures forall k :: 0 <= k < quiet ==> ToLower(text)[k] !in {'o', 'c'}
  {
    ToLowerAt(text);
    forall k | 0 <= k < quiet ensures ToLower(text)[k] !in {'o', 'c'} {
      assert text[..quiet][k] == text[k];
    }
  }

  lemma OneWordAfterSpace(mode: string)
    requires PlainMode(mode)
    ensures ClauseFlag(SplitWhitespace(" " + mode)) == Some(mode)
  {
    OneWord(mode);
    SplitAppends("", mode);
    assert "" + " " + mode == " " + mode && SplitWhitespace("") == [];
  }

  lemma OnlyWorksIsProse(mode: string)
    requires PlainMode(mode)
    ensures Trimmed(OnlyWorksWith(mode)) && FlagsOf(OnlyWorksWith(mode)) == []
  {
    var text := OnlyWorksWith(mode);
    assert text[0] == 'o' && text[|text| - 1] == mode[|mode| - 1];
    assert forall k :: 0 <= k < |mode| ==> !IsSpace(mode[k]);
    assert '\n' !in "only works with ";
    OptionFlagsOf(text);
  }

  lemma PhraseIsRead(start: string, mode: string)
    requires PlainMode(mode) && Trimmed(start)
    ensures Trimmed(start + " " + OnlyWorksWith(mode))
    ensures FlagsOf(start + " " + OnlyWorksWith(mode)) == FlagsOf(start)
  {
    var more := OnlyWorksWith(mode);
    OnlyWorksIsProse(mode);
    SplitAppends(start, more);
    LeadingFlagsAppend(SplitWhitespace(start), SplitWhitespace(more));
  }

  lemma UsedAsGiven(args: seq<string>)
    requires DistinctNames(args) && forall k :: 0 <= k < |args| ==> PlainFlag(args[k])
    ensures UsedFlags(args, []) == args
  {
    assert EndOfOptions(args) == |args| by {
      NoMarker(args);
    }
    assert args[..|args|] == args;
    PlainNames(args);
    DistinctIsFirstSeen([], args);
  }

  lemma {:induction false} NoMarker(args: seq<string>)
    requires forall k :: 0 <= k < |args| ==> PlainFlag(args[k])
    ensures EndOfOptions(args) == |args|
    decreases |args|
  {
    if args != [] {
      NoMarker(args[1..]);
    }
  }

  lemma {:induction false} PlainNames(args: seq<string>)
    requires forall k :: 0 <= k < |args| ==> PlainFlag(args[k])
    ensures FlagNames(args, []) == args
    decreases |args|
  {
    hide PlainFlag, FlagOf;
    if args != [] {
      var last := args[|args| - 1];
      PlainNames(args[..|args| - 1]);
      PlainFlagOf(last);
      assert args == args[..|args| - 1] + [last];
    }
  }

  lemma PlainFlagOf(flag: string)
    requires PlainFlag(flag)
    ensures FlagOf(flag, []) == [flag]
  {
  }

  lemma {:induction false} DistinctIsFirstSeen(seen: seq<string>, names: seq<string>)
    requires DistinctNames(names) && forall name :: name in names ==> name !in seen
    ensures Extend(seen, names) == seen + names
    decreases |names|
  {
    if names != [] {
      assert names == [names[0]] + names[1..];
      DistinctIsFirstSeen(seen + [names[0]], names[1..]);
    }
  }

  // A help text, and a command line in the mode it asks for, with the mode reported
  // missing.
  lemma CapitalModeInText(name: string, mode: string)
    requires PlainFlag(name) && Quiet(name) && PlainMode(mode)
    requires !NoCapitals(mode) && name != mode && name != ToLower(mode)
    ensures
      var o := Printing(Chunk("", name + " " + OnlyWorksWith(mode)), []);
      && Printed(Entry(o))
      && ModeRestrictedFlags(TextOf([Entry(o)]), [name, mode], []) == [(name, ToLower(mode))]
  {
    hide PlainMode, PlainFlag, FlagsOf, TextOf, Lines, OptionsOf, SpelledMode, ModeRequirement, UsedFlags;
    hide Quiet, Trimmed;
    var o := Printing(Chunk("", name + " " + OnlyWorksWith(mode)), []);
    OneOption(name, mode);
    var option := Read(o);
    ModeIsSpelled(option.flags, name, mode);
    LowerIsSame(mode);
    OnTheCommandLine(name, mode);
    RequirementIsLowered(option);
    assert OptionFor([option], name) == Some(option) && OptionFor([option], mode) == None;
    assert [name, mode][1..] == [mode] && [mode][1..] == [];
    assert Restricted([option], [name, mode], [mode]) == [];
  }

  lemma CapitalModeExample()
    ensures
      var text := "-x" + " " + OnlyWorksWith("-P");
      ModeRestrictedFlags(text + "\n", ["-x", "-P"], []) == [("-x", "-p")]
  {
    hide TextOf, ModeRestrictedFlags, OnlyWorksWith, PlainMode, Quiet;
    ShortFlag('x');
    ShortFlag('P');
    LowerShort();
    CapitalModeInText("-x", "-P");
    OneLine("-x" + " " + OnlyWorksWith("-P"));
  }

  lemma LowerShort()
    ensures ToLower("-P") == "-p" && !NoCapitals("-P")
  {
    ToLowerAt("-P");
    assert 'A' <= "-P"[1] <= 'Z';
  }

  lemma OneLine(text: string)
    ensures TextOf([Entry(Printing(Chunk("", text), []))]) == text + "\n"
  {
    var item := Entry(Printing(Chunk("", text), []));
    assert [item][1..] == [] && TextLines([]) == [] && ChunkLines([]) == [];
    assert Line(Chunk("", text)) == text && ItemLines(item) == [text];
    assert [text][1..] == [] && Unlines([]) == "";
  }

  lemma ShortFlag(c: char)
    requires c in {'x', 'P'}
    ensures PlainMode(['-', c]) && Quiet(['-', c])
  {
    var flag := ['-', c];
    assert flag[1..] == [c] && [c][1..] == "";
    assert FlagName([c]) == [c] && FlagName("") == "";
    assert DropCommas(flag) == flag && DropClosers(flag) == flag;
  }

  lemma OneOption(name: string, mode: string)
    requires PlainFlag(name) && PlainMode(mode)
    ensures
      var text := name + " " + OnlyWorksWith(mode);
      var o := Printing(Chunk("", text), []);
      && Printed(Entry(o)) && Read(o) == HelpOption([name], text)
      && OptionsOf(Lines(TextOf([Entry(o)]))) == [Read(o)]
  {
    PlainIsTrimmed(name);
    PhraseIsRead(name, mode);
    OneEntry(Printing(Chunk("", name + " " + OnlyWorksWith(mode)), []));
  }

  lemma OnTheCommandLine(name: string, mode: string)
    requires PlainFlag(name) && PlainMode(mode) && name != mode
    ensures UsedFlags([name, mode], []) == [name, mode]
  {
    assert [name, mode][1..] == [mode] && [mode][1..] == [];
    UsedAsGiven([name, mode]);
  }

  // The report changes with the width, too, when a description begins with a dash.
  lemma WidthChangesReport(flag: string, other: string, mode: string)
    requires PlainFlag(flag) && PlainFlag(other) && PlainMode(mode) && Quiet(flag) && Quiet(other)
    requires flag != other && other != ToLower(mode)
    ensures
      var described := other + " " + OnlyWorksWith(mode);
      var narrow := [Entry(Printing(Chunk("", flag), [Chunk(" ", described)]))];
      var wide := [Entry(Printing(Chunk("", flag + " " + described), []))];
      && SameTexts(Entries(narrow), Entries(wide))
      && ModeRestrictedFlags(TextOf(narrow), [other], []) == []
      && ModeRestrictedFlags(TextOf(wide), [other], []) == [(other, ToLower(mode))]
  {
    hide PlainFlag, FlagsOf, TextOf, Lines, OptionsOf, SpelledMode, ModeRequirement, UsedFlags, Trimmed;
    hide AllPrinted, WellSpaced, SameTexts, Entries, OnlyWorksWith, Quiet;
    OnlyWorksIsProse(mode);
    WidthChangesFlags(flag, other, OnlyWorksWith(mode));
    UsedAlone(other);
    var text := flag + " " + (other + " " + OnlyWorksWith(mode));
    assert text == flag + " " + other + " " + OnlyWorksWith(mode);
    BothQuiet(flag, other);
    ModeIsSpelled([flag, other], flag + " " + other, mode);
    RequirementIsLowered(HelpOption([flag, other], text));
    OneFlagReport(HelpOption([flag], text), other);
    OneFlagReport(HelpOption([flag, other], text), other);
  }

  lemma BothQuiet(a: string, b: string)
    requires Quiet(a) && Quiet(b)
    ensures Quiet(a + " " + b)
  {
  }

  lemma OneFlagReport(option: HelpOption, flag: string)
    ensures Restricted([option], [flag], [flag])
         == if flag in option.flags && ModeRequirement(option).Some? && ModeRequirement(option).value != flag
            then [(flag, ModeRequirement(option).value)] else []
  {
    hide ModeRequirement;
    assert [option][1..] == [] && [flag][1..] == [];
    assert OptionFor([], flag) == None && Restricted([option], [flag], []) == [];
    assert OptionFor([option], flag) == if flag in option.flags then Some(option) else None;
  }

  lemma UsedAlone(flag: string)
    requires PlainFlag(flag)
    ensures UsedFlags([flag], []) == [flag]
  {
    assert [flag][1..] == [];
    UsedAsGiven([flag]);
  }
}
