// Does an agent's help text list the flags a launch would use, and does it say a
// flag only works in a mode the launch is not in?
module HelpText {
  import opened Wrappers
  import opened NameLists
  import opened Text

  // ---------- Flags ----------

  predicate LooksLikeFlag(token: string) {
    token != "" && token[0] == '-' && token != "-" && token != "--"
  }

  // The part before the first '='.
  function FlagName(token: string): string {
    if token == "" || token[0] == '=' then "" else [token[0]] + FlagName(token[1..])
  }

  // The token is that name, or that name, '=' and a value, which may hold a '=' again.
  predicate Names(token: string, name: string) {
    name <= token && '=' !in name && (name == token || token[|name|] == '=')
  }

  lemma FlagNameStep(token: string)
    ensures FlagName(token) == if token == "" || token[0] == '=' then "" else [token[0]] + FlagName(token[1..])
  {
  }

  lemma NamesStep(token: string, name: string)
    requires token != "" && token[0] != '='
    ensures Names(token, name) <==> name != "" && name[0] == token[0] && Names(token[1..], name[1..])
  {
    if name != "" && name[0] == token[0] {
      assert name == [name[0]] + name[1..] && token == [token[0]] + token[1..];
    }
  }

  lemma {:induction false} FlagNameIsTheName(token: string, name: string)
    ensures Names(token, name) <==> name == FlagName(token)
    decreases |token|
  {
    FlagNameStep(token);
    hide FlagName;
    if token != "" && token[0] != '=' {
      NamesStep(token, name);
      hide Names;
      if name != "" {
        FlagNameIsTheName(token[1..], name[1..]);
        assert name == [name[0]] + name[1..];
      }
    }
  }

  // The flag an argument uses, if it is one and was not declared a value.
  function FlagOf(token: string, values: seq<string>): seq<string> {
    if token in values || !LooksLikeFlag(token) then [] else [FlagName(token)]
  }

  function FlagNames(args: seq<string>, values: seq<string>): seq<string> {
    if args == [] then []
    else FlagNames(args[..|args| - 1], values) + FlagOf(args[|args| - 1], values)
  }

  // Where the options end: at the first "--", or at the end.
  function EndOfOptions(args: seq<string>): (end: nat)
    ensures end <= |args|
    ensures forall k :: 0 <= k < end ==> args[k] != "--"
    ensures end < |args| ==> args[end] == "--"
  {
    if args == [] || args[0] == "--" then 0 else 1 + EndOfOptions(args[1..])
  }

  function UsedFlags(args: seq<string>, values: seq<string>): seq<string> {
    FirstSeen(FlagNames(args[..EndOfOptions(args)], values))
  }

  method FlagsUsed(args: seq<string>, values: seq<string>) returns (seen: seq<string>)
    ensures seen == UsedFlags(args, values)
  {
    seen := [];
    var i := 0;
    while i < |args| && args[i] != "--"
      invariant 0 <= i <= EndOfOptions(args)
      invariant seen == FirstSeen(FlagNames(args[..i], values))
    {
      var token := args[i];
      NextFlag(args, values, i);
      i := i + 1;
      if token in values || !LooksLikeFlag(token) {
        continue;
      }
      var name := FlagName(token);
      if name !in seen {
        seen := seen + [name];
      }
    }
  }

  lemma NextFlag(args: seq<string>, values: seq<string>, i: nat)
    requires i < |args|
    ensures var before, after := FirstSeen(FlagNames(args[..i], values)), FirstSeen(FlagNames(args[..i + 1], values));
            after == if args[i] in values || !LooksLikeFlag(args[i]) || FlagName(args[i]) in before then before
                     else before + [FlagName(args[i])]
  {
    assert args[..i + 1][..i] == args[..i];
    var names := FlagNames(args[..i], values);
    if args[i] in values || !LooksLikeFlag(args[i]) {
      assert names + [] == names;
    } else {
      FirstSeenStep(names, FlagName(args[i]));
    }
  }

  lemma {:induction false} FlagNamesMember(args: seq<string>, values: seq<string>, name: string)
    ensures name in FlagNames(args, values) <==>
            exists k :: 0 <= k < |args| && args[k] !in values && LooksLikeFlag(args[k]) && FlagName(args[k]) == name
    decreases |args|
  {
    if args != [] {
      var front, last := args[..|args| - 1], args[|args| - 1];
      FlagNamesMember(front, values, name);
      assert forall k :: 0 <= k < |front| ==> front[k] == args[k];
      if name in FlagNames(front, values) {
        var k :| 0 <= k < |front| && front[k] !in values && LooksLikeFlag(front[k]) && FlagName(front[k]) == name;
        assert args[k] == front[k];
      }
    }
  }

  // The token begins with a dash, is more than one, and is not the end-of-options marker.
  predicate FlagToken(token: string) {
    |token| >= 2 && token[0] == '-' && !(|token| == 2 && token[1] == '-')
  }

  // The flags used: each once, and exactly the names of the undeclared flag
  // tokens before the end-of-options marker. Each starts with a dash and holds no '='.
  lemma UsedFlagsAre(args: seq<string>, values: seq<string>, name: string)
    ensures DistinctNames(UsedFlags(args, values))
    ensures name in UsedFlags(args, values) <==>
            exists k :: && 0 <= k < |args| && (forall j :: 0 <= j <= k ==> args[j] != "--")
                        && args[k] !in values && FlagToken(args[k]) && Names(args[k], name)
    ensures name in UsedFlags(args, values) ==> name != "" && name[0] == '-' && '=' !in name
  {
    var options := args[..EndOfOptions(args)];
    ExtendDistinct([], FlagNames(options, values));
    ExtendMember([], FlagNames(options, values), name);
    FlagNamesMember(options, values, name);
    assert forall k :: 0 <= k < |options| ==> options[k] == args[k];
    forall k | 0 <= k < |args| ensures Names(args[k], name) <==> name == FlagName(args[k]) {
      FlagNameIsTheName(args[k], name);
    }
    if k :| 0 <= k < |options| && options[k] !in values && LooksLikeFlag(options[k]) && FlagName(options[k]) == name {
      assert FlagToken(args[k]) && Names(args[k], name);
      FlagNameStarts(args[k]);
    }
  }

  lemma FlagNameStarts(token: string)
    requires FlagToken(token)
    ensures FlagName(token) != "" && FlagName(token)[0] == '-'
  {
  }

  // The flags come in the order in which they are first used: one more argument leaves
  // the flags before it as they are, and adds its own at the end if that is a new one.
  lemma UsedFlagsInOrder(args: seq<string>, values: seq<string>, token: string, name: string)
    requires forall k :: 0 <= k < |args| ==> args[k] != "--"
    requires Names(token, name)
    ensures UsedFlags([], values) == []
    ensures UsedFlags(args + [token], values)
         == if token !in values && FlagToken(token) && name !in UsedFlags(args, values)
            then UsedFlags(args, values) + [name]
            else UsedFlags(args, values)
  {
    FlagNameIsTheName(token, name);
    var more := args + [token];
    assert more[..|args|] == args && more[..|more|] == more && args[..|args|] == args;
    NextFlag(more, values, |args|);
    MarkerFree(args);
    if token == "--" {
      MarkerLast(args);
    } else {
      MarkerFree(more);
    }
    hide EndOfOptions, FlagNames, FirstSeen, FlagName, Names;
    assert FirstSeen(FlagNames([], values)) == [] by {
      NoFlags(values);
    }
  }

  lemma NoFlags(values: seq<string>)
    ensures FirstSeen(FlagNames([], values)) == [] && EndOfOptions([]) == 0
  {
  }

  lemma MarkerFree(args: seq<string>)
    requires forall k :: 0 <= k < |args| ==> args[k] != "--"
    ensures EndOfOptions(args) == |args|
  {
  }

  lemma MarkerLast(args: seq<string>)
    requires forall k :: 0 <= k < |args| ==> args[k] != "--"
    ensures EndOfOptions(args + ["--"]) == |args|
  {
    MarkerEnds(args, []);
    var more := args + ["--"];
    var end := EndOfOptions(more);
    hide EndOfOptions;
    assert forall k :: 0 <= k < |args| ==> more[k] == args[k];
  }

  // ---------- Is a flag listed? ----------

  predicate OccursAt(help: string, flag: string, at: nat) {
    at + |flag| <= |help| && help[at..at + |flag|] == flag
  }

  // No letter, digit or dash stands directly before or after.
  predicate Clear(help: string, from: nat, end: nat, alphanumeric: char -> bool)
    requires from <= end <= |help|
  {
    && (from == 0 || !(alphanumeric(help[from - 1]) || help[from - 1] == '-'))
    && (end == |help| || !(alphanumeric(help[end]) || help[end] == '-'))
  }

  predicate ListedAt(help: string, flag: string, at: nat, alphanumeric: char -> bool) {
    OccursAt(help, flag, at) && Clear(help, at, at + |flag|, alphanumeric)
  }

  predicate Listed(help: string, flag: string, alphanumeric: char -> bool) {
    exists at :: 0 <= at <= |help| && ListedAt(help, flag, at, alphanumeric)
  }

  function Find(help: string, flag: string, from: nat): (at: Option<nat>)
    requires from <= |help|
    ensures at.Some? ==> from <= at.value && OccursAt(help, flag, at.value)
    ensures forall k :: from <= k && (at.Some? ==> k < at.value) ==> !OccursAt(help, flag, k)
    decreases |help| - from
  {
    if OccursAt(help, flag, from) then Some(from)
    else if from == |help| then None
    else Find(help, flag, from + 1)
  }

  // An empty flag would run past the end of the text; no flag in use is empty.
  method HelpListsFlag(help: string, flag: string, alphanumeric: char -> bool) returns (listed: bool)
    requires flag != ""
    ensures listed <==> Listed(help, flag, alphanumeric)
  {
    hide ListedAt, Find;
    var from := 0;
    var found := Find(help, flag, from);
    while found.Some?
      invariant 0 <= from <= |help| && found == Find(help, flag, from)
      invariant forall at :: 0 <= at < from ==> !ListedAt(help, flag, at, alphanumeric)
      decreases |help| - from
    {
      var start := found.value;
      var end := start + |flag|;
      var beforeOk := start == 0 || !(alphanumeric(help[start - 1]) || help[start - 1] == '-');
      var afterOk := end == |help| || !(alphanumeric(help[end]) || help[end] == '-');
      BoundariesDecide(help, flag, start, alphanumeric);
      if beforeOk && afterOk {
        return true;
      }
      NoneListedBetween(help, flag, from, start, alphanumeric);
      from := start + 1;
      found := Find(help, flag, from);
    }
    NoneListedBetween(help, flag, from, |help| + 1, alphanumeric);
    return false;
  }

  lemma BoundariesDecide(help: string, flag: string, at: nat, alphanumeric: char -> bool)
    requires OccursAt(help, flag, at)
    ensures var end := at + |flag|;
            ListedAt(help, flag, at, alphanumeric) <==>
            && (at == 0 || !(alphanumeric(help[at - 1]) || help[at - 1] == '-'))
            && (end == |help| || !(alphanumeric(help[end]) || help[end] == '-'))
  {
  }

  lemma NoneListedBetween(help: string, flag: string, from: nat, end: nat, alphanumeric: char -> bool)
    requires forall k :: from <= k < end ==> !OccursAt(help, flag, k)
    ensures forall k :: from <= k < end ==> !ListedAt(help, flag, k, alphanumeric)
  {
  }

  function UnlistedFlags(
    help: string, args: seq<string>, values: seq<string>, alphanumeric: char -> bool): seq<string>
  {
    Unlisted(help, UsedFlags(args, values), alphanumeric)
  }

  function Unlisted(help: string, used: seq<string>, alphanumeric: char -> bool): seq<string> {
    if used == [] then []
    else (if Listed(help, used[0], alphanumeric) then [] else [used[0]]) + Unlisted(help, used[1..], alphanumeric)
  }

  // The flags help does not list are exactly those in use that stand nowhere in it.
  lemma {:induction false} UnlistedMember(help: string, used: seq<string>, alphanumeric: char -> bool, flag: string)
    ensures flag in Unlisted(help, used, alphanumeric) <==> flag in used && !Listed(help, flag, alphanumeric)
    decreases |used|
  {
    if used != [] {
      UnlistedMember(help, used[1..], alphanumeric, flag);
      assert used == [used[0]] + used[1..];
    }
  }

  // They are reported in the order in which they are used.
  lemma {:induction false} UnlistedAppends(
      help: string, a: seq<string>, b: seq<string>, alphanumeric: char -> bool)
    ensures Unlisted(help, a + b, alphanumeric) == Unlisted(help, a, alphanumeric) + Unlisted(help, b, alphanumeric)
    decreases |a|
  {
    if a == [] {
      assert a + b == b;
    } else {
      assert (a + b)[1..] == a[1..] + b;
      UnlistedAppends(help, a[1..], b, alphanumeric);
    }
  }

  // ---------- Option blocks ----------

  datatype HelpOption = HelpOption(flags: seq<string>, text: string)

  function DropCommas(token: string): string {
    if token != "" && token[|token| - 1] == ',' then DropCommas(token[..|token| - 1]) else token
  }

  // What is left of a token when the characters of a set are taken off its end.
  predicate CutAtEnd(token: string, kept: string, cut: set<char>) {
    && kept <= token
    && (forall k :: |kept| <= k < |token| ==> token[k] in cut)
    && (kept != "" ==> kept[|kept| - 1] !in cut)
  }

  lemma {:induction false} DropCommasCuts(token: string, kept: string)
    ensures CutAtEnd(token, kept, {','}) <==> kept == DropCommas(token)
    decreases |token|
  {
    if token != "" && token[|token| - 1] == ',' {
      var front := token[..|token| - 1];
      DropCommasCuts(front, kept);
      assert kept == token ==> kept[|kept| - 1] == ',';
      assert forall k :: 0 <= k < |front| ==> front[k] == token[k];
      assert kept <= front ==> kept <= token;
      assert kept <= token && kept != token ==> kept <= front;
    } else {
      assert kept <= token && |kept| == |token| ==> kept == token;
    }
  }

  // The names of the flags a list of tokens begins with.
  function LeadingFlags(tokens: seq<string>): seq<string> {
    if tokens == [] || !LooksLikeFlag(DropCommas(tokens[0])) then []
    else [FlagName(DropCommas(tokens[0]))] + LeadingFlags(tokens[1..])
  }

  // The token, with or without commas after it, is a flag of that name.
  ghost predicate Declares(token: string, name: string) {
    exists kept :: CutAtEnd(token, kept, {','}) && FlagToken(kept) && Names(kept, name)
  }

  // They are the flags of the longest run of flag tokens at the start, one for each, in
  // order: commas after them and values are left out.
  lemma {:induction false} LeadingFlagsAre(tokens: seq<string>)
    ensures var flags := LeadingFlags(tokens);
            && |flags| <= |tokens|
            && (forall k :: 0 <= k < |flags| ==> Declares(tokens[k], flags[k]))
            && (|flags| < |tokens| ==> forall name :: !Declares(tokens[|flags|], name))
    decreases |tokens|
  {
    if tokens != [] {
      var first := DropCommas(tokens[0]);
      forall kept ensures CutAtEnd(tokens[0], kept, {','}) <==> kept == first {
        DropCommasCuts(tokens[0], kept);
      }
      if LooksLikeFlag(first) {
        FlagNameIsTheName(first, FlagName(first));
        assert Declares(tokens[0], FlagName(first));
        LeadingFlagsAre(tokens[1..]);
      }
    }
  }

  function OptionFlags(trimmed: string): Option<seq<string>> {
    if trimmed == "" || trimmed[0] != '-' then None
    else
      var flags := LeadingFlags(SplitWhitespace(trimmed));
      if flags == [] then None else Some(flags)
  }

  datatype Block = Block(indent: nat, option: HelpOption)

  // The options closed so far and the one still open.
  datatype Parse = Parse(options: seq<HelpOption>, current: Option<Block>)

  function Close(p: Parse): Parse {
    match p.current
    case None => p
    case Some(block) => Parse(p.options + [block.option], None)
  }

  function StepLine(p: Parse, line: string): Parse {
    var trimmed := Trim(line);
    if trimmed == "" then Close(p)
    else
      var indent := ByteLen(line[..|line| - |TrimStart(line)|]);
      var flags := OptionFlags(trimmed);
      if flags.Some? && !(p.current.Some? && indent > p.current.value.indent) then
        Close(p).(current := Some(Block(indent, HelpOption(flags.value, trimmed))))
      else match p.current
        case None => p
        case Some(block) =>
          p.(current := Some(block.(option := block.option.(text := block.option.text + " " + trimmed))))
  }

  function ParseLines(p: Parse, lines: seq<string>): Parse
    decreases |lines|
  {
    if lines == [] then p else ParseLines(StepLine(p, lines[0]), lines[1..])
  }

  function OptionsOf(lines: seq<string>): seq<HelpOption> {
    Close(ParseLines(Parse([], None), lines)).options
  }

  predicate ValueFree(options: seq<HelpOption>) {
    forall k :: 0 <= k < |options| ==> forall flag :: flag in options[k].flags ==> '=' !in flag
  }

  predicate ParsesValueFree(p: Parse) {
    ValueFree(p.options) && (p.current.Some? ==> ValueFree([p.current.value.option]))
  }

  lemma StepLineIsValueFree(p: Parse, line: string)
    requires ParsesValueFree(p)
    ensures ParsesValueFree(StepLine(p, line)) && ParsesValueFree(Close(p))
  {
    var tokens := SplitWhitespace(Trim(line));
    LeadingFlagsAre(tokens);
    if p.current.Some? {
      assert [p.current.value.option][0] == p.current.value.option;
    }
  }

  lemma {:induction false} ParseLinesIsValueFree(p: Parse, lines: seq<string>)
    requires ParsesValueFree(p)
    ensures ParsesValueFree(ParseLines(p, lines))
    decreases |lines|
  {
    if lines != [] {
      StepLineIsValueFree(p, lines[0]);
      ParseLinesIsValueFree(StepLine(p, lines[0]), lines[1..]);
    }
  }

  // No option of any help text declares a flag with a value: a flag in use, which has
  // none either, can be looked up by its name.
  lemma OptionsHoldNoValue(lines: seq<string>, k: nat, flag: string)
    requires k < |OptionsOf(lines)| && flag in OptionsOf(lines)[k].flags
    ensures '=' !in flag
  {
    ParseLinesIsValueFree(Parse([], None), lines);
    StepLineIsValueFree(ParseLines(Parse([], None), lines), "");
  }

  // The lines of a text; a last line break opens no further line.
  function Lines(text: string): seq<string>
    decreases |text|
  {
    var end := LineEnd(text);
    if text == "" then []
    else if end == |text| then [text]
    else [text[..end]] + Lines(text[end + 1..])
  }

  function LineEnd(text: string): (end: nat)
    ensures end <= |text|
  {
    if text == "" || text[0] == '\n' then 0 else 1 + LineEnd(text[1..])
  }

  method ReadOptionFlags(trimmed: string) returns (flags: Option<seq<string>>)
    ensures flags == OptionFlags(trimmed)
  {
    if trimmed == "" || trimmed[0] != '-' {
      return None;
    }
    var tokens := SplitWhitespace(trimmed);
    var names := [];
    for i := 0 to |tokens|
      invariant LeadingFlags(tokens) == names + LeadingFlags(tokens[i..])
    {
      var token := DropCommas(tokens[i]);
      if !LooksLikeFlag(token) {
        assert LeadingFlags(tokens[i..]) == [] && LeadingFlags(tokens) == names;
        break;
      }
      assert tokens[i..][1..] == tokens[i + 1..];
      names := names + [FlagName(token)];
    }
    assert tokens[|tokens|..] == [] && LeadingFlags(tokens) == names;
    flags := if names == [] then None else Some(names);
  }

  method HelpOptions(help: string) returns (options: seq<HelpOption>)
    ensures options == OptionsOf(Lines(help))
  {
    options := [];
    var current: Option<Block> := None;
    var lines := Lines(help);
    for i := 0 to |lines|
      invariant ParseLines(Parse(options, current), lines[i..]) == ParseLines(Parse([], None), lines)
    {
      var line := lines[i];
      ghost var before := Parse(options, current);
      assert lines[i..][1..] == lines[i + 1..];
      var trimmed := Trim(line);
      if trimmed == "" {
        if current.Some? {
          options := options + [current.value.option];
          current := None;
        }
      } else {
        var indent := ByteLen(line[..|line| - |TrimStart(line)|]);
        var startsOption := ReadOptionFlags(trimmed);
        var continues := current.Some? && indent > current.value.indent;
        if startsOption.Some? && !continues {
          if current.Some? {
            options := options + [current.value.option];
          }
          current := Some(Block(indent, HelpOption(startsOption.value, trimmed)));
        } else if current.Some? {
          var option := current.value.option;
          current := Some(current.value.(option := option.(text := option.text + " " + trimmed)));
        }
      }
      assert Parse(options, current) == StepLine(before, line);
    }
    if current.Some? {
      options := options + [current.value.option];
    }
  }

  // ---------- Flags that only work in another mode ----------

  const RESTRICTION_PHRASES: seq<string> :=
    ["only works with", "only valid with", "only available with", "can only be used with"]

  function Lower(c: char): char {
    if 'A' <= c <= 'Z' then c - 'A' + 'a' else c
  }

  function ToLower(s: string): (lowered: string)
    ensures |lowered| == |s|
  {
    if s == "" then "" else [Lower(s[0])] + ToLower(s[1..])
  }

  lemma {:induction false} ToLowerAt(s: string, k: nat)
    requires k < |s|
    ensures ToLower(s)[k] as int == s[k] as int + if 'A' <= s[k] <= 'Z' then 32 else 0
    decreases |s|
  {
    if k > 0 {
      ToLowerAt(s[1..], k - 1);
    }
  }

  function DropClosers(token: string): string {
    if token != "" && token[|token| - 1] in {')', ',', ';', '.'} then DropClosers(token[..|token| - 1]) else token
  }

  lemma {:induction false} DropClosersCuts(token: string, kept: string)
    ensures CutAtEnd(token, kept, {')', ',', ';', '.'}) <==> kept == DropClosers(token)
    decreases |token|
  {
    if token != "" && token[|token| - 1] in {')', ',', ';', '.'} {
      var front := token[..|token| - 1];
      DropClosersCuts(front, kept);
      assert kept == token ==> kept[|kept| - 1] in {')', ',', ';', '.'};
      assert forall k :: 0 <= k < |front| ==> front[k] == token[k];
      assert kept <= front ==> kept <= token;
      assert kept <= token && kept != token ==> kept <= front;
    } else {
      assert kept <= token && |kept| == |token| ==> kept == token;
    }
  }

  // Where the first restriction phrase to end, ends.
  function PhraseEnd(lowered: string, phrases: seq<string>): (end: Option<nat>)
    ensures end.Some? ==> end.value <= |lowered|
  {
    if phrases == [] then None
    else
      var here, later := Find(lowered, phrases[0], 0), PhraseEnd(lowered, phrases[1..]);
      match here
      case None => later
      case Some(at) =>
        if later.Some? && later.value < at + |phrases[0]| then later else Some(at + |phrases[0]|)
  }

  // No restriction phrase ends before that, wherever it stands.
  lemma {:induction false} PhraseEndIsEarliest(lowered: string, phrases: seq<string>)
    ensures
      match PhraseEnd(lowered, phrases)
      case None => forall k, at: nat :: 0 <= k < |phrases| ==> !OccursAt(lowered, phrases[k], at)
      case Some(end) =>
        && (exists k, at: nat :: 0 <= k < |phrases| && OccursAt(lowered, phrases[k], at) && end == at + |phrases[k]|)
        && (forall k, at: nat :: 0 <= k < |phrases| && OccursAt(lowered, phrases[k], at) ==> end <= at + |phrases[k]|)
    decreases |phrases|
  {
    if phrases != [] {
      var rest := phrases[1..];
      PhraseEndIsEarliest(lowered, rest);
      var here := Find(lowered, phrases[0], 0);
      assert forall at: nat :: here.None? || at < here.value ==> !OccursAt(lowered, phrases[0], at);
      forall k, at: nat | 0 <= k < |phrases| && OccursAt(lowered, phrases[k], at)
        ensures PhraseEnd(lowered, phrases).Some? && PhraseEnd(lowered, phrases).value <= at + |phrases[k]|
      {
        if k > 0 {
          assert rest[k - 1] == phrases[k];
        }
      }
      if PhraseEnd(lowered, phrases).Some? && PhraseEnd(lowered, phrases) == PhraseEnd(lowered, rest) {
        var k, at: nat :| 0 <= k < |rest| && OccursAt(lowered, rest[k], at)
                          && PhraseEnd(lowered, rest).value == at + |rest[k]|;
        assert phrases[k + 1] == rest[k];
      }
    }
  }

  // The first flag of the clause; a token that ends a sentence ends the clause.
  function ClauseFlag(tokens: seq<string>): Option<string> {
    if tokens == [] then None
    else if LooksLikeFlag(DropClosers(tokens[0])) then Some(DropClosers(tokens[0]))
    else if tokens[0] != "" && tokens[0][|tokens[0]| - 1] == '.' then None
    else ClauseFlag(tokens[1..])
  }

  predicate Closes(token: string, flag: string) {
    CutAtEnd(token, flag, {')', ',', ';', '.'}) && FlagToken(flag)
  }

  predicate EndsSentence(token: string) {
    token != "" && token[|token| - 1] == '.'
  }

  // No flag and no end of a sentence comes before this token.
  ghost predicate ClauseReaches(tokens: seq<string>, k: nat) {
    forall j, f :: 0 <= j < k && j < |tokens| ==> !EndsSentence(tokens[j]) && !Closes(tokens[j], f)
  }

  // It is the flag of the first token that is one, unless a sentence ends before.
  lemma {:induction false} ClauseFlagIsFirst(tokens: seq<string>, flag: string)
    ensures ClauseFlag(tokens) == Some(flag) <==>
            exists k :: 0 <= k < |tokens| && Closes(tokens[k], flag) && ClauseReaches(tokens, k)
    decreases |tokens|
  {
    if tokens != [] {
      var first, rest := DropClosers(tokens[0]), tokens[1..];
      forall f ensures Closes(tokens[0], f) <==> f == first && LooksLikeFlag(first) {
        DropClosersCuts(tokens[0], f);
      }
      hide Closes, CutAtEnd, DropClosers, LooksLikeFlag;
      ClauseFlagIsFirst(rest, flag);
      if !LooksLikeFlag(first) && !EndsSentence(tokens[0]) {
        ClauseShifts(tokens, flag);
      } else {
        assert EndsSentence(tokens[0]) || Closes(tokens[0], first);
      }
    }
  }

  lemma ClauseShifts(tokens: seq<string>, flag: string)
    requires tokens != [] && !EndsSentence(tokens[0]) && forall f :: !Closes(tokens[0], f)
    ensures (exists k :: 0 <= k < |tokens| && Closes(tokens[k], flag) && ClauseReaches(tokens, k))
       <==> (exists k :: 0 <= k < |tokens[1..]| && Closes(tokens[1..][k], flag) && ClauseReaches(tokens[1..], k))
  {
    hide Closes, EndsSentence;
    var rest := tokens[1..];
    if k :| 0 <= k < |tokens| && Closes(tokens[k], flag) && ClauseReaches(tokens, k) {
      assert Closes(rest[k - 1], flag);
      assert forall j :: 0 <= j < k - 1 ==> rest[j] == tokens[j + 1];
      assert ClauseReaches(rest, k - 1);
    }
    if k :| 0 <= k < |rest| && Closes(rest[k], flag) && ClauseReaches(rest, k) {
      assert Closes(tokens[k + 1], flag);
      assert forall j :: 0 < j < k + 1 ==> tokens[j] == rest[j - 1];
      assert ClauseReaches(tokens, k + 1);
    }
  }

  function ModeRequirement(option: HelpOption): Option<string> {
    var lowered := ToLower(option.text);
    match PhraseEnd(lowered, RESTRICTION_PHRASES)
    case None => None
    case Some(start) => ClauseFlag(SplitWhitespace(lowered[start..]))
  }

  method FindModeRequirement(option: HelpOption) returns (required: Option<string>)
    ensures required == ModeRequirement(option)
  {
    var lowered := ToLower(option.text);
    var start := PhraseEnd(lowered, RESTRICTION_PHRASES);
    if start.None? {
      return None;
    }
    var tokens := SplitWhitespace(lowered[start.value..]);
    for i := 0 to |tokens|
      invariant ClauseFlag(tokens) == ClauseFlag(tokens[i..])
    {
      var trimmed := DropClosers(tokens[i]);
      if LooksLikeFlag(trimmed) {
        return Some(trimmed);
      }
      if tokens[i] != "" && tokens[i][|tokens[i]| - 1] == '.' {
        return None;
      }
      assert tokens[i..][1..] == tokens[i + 1..];
    }
    required := None;
  }

  // The first option that declares the flag.
  function OptionFor(options: seq<HelpOption>, flag: string): Option<HelpOption> {
    if options == [] then None
    else if flag in options[0].flags then Some(options[0])
    else OptionFor(options[1..], flag)
  }

  lemma {:induction false} OptionForIsFirst(options: seq<HelpOption>, flag: string)
    ensures match OptionFor(options, flag)
            case None => forall k :: 0 <= k < |options| ==> flag !in options[k].flags
            case Some(option) =>
              exists k :: && 0 <= k < |options| && options[k] == option && flag in option.flags
                          && (forall j :: 0 <= j < k ==> flag !in options[j].flags)
    decreases |options|
  {
    if options != [] && flag !in options[0].flags {
      var rest := options[1..];
      OptionForIsFirst(rest, flag);
      assert forall k :: 0 < k < |options| ==> options[k] == rest[k - 1];
      if OptionFor(rest, flag).Some? {
        var k :| && 0 <= k < |rest| && rest[k] == OptionFor(rest, flag).value && flag in rest[k].flags
                 && (forall j :: 0 <= j < k ==> flag !in rest[j].flags);
        assert options[k + 1] == rest[k];
      }
    }
  }

  // The mode a flag needs and the argument list is not in.
  function MissingMode(options: seq<HelpOption>, used: seq<string>, flag: string): Option<string> {
    match OptionFor(options, flag)
    case None => None
    case Some(option) =>
      match ModeRequirement(option)
      case None => None
      case Some(required) => if required in used then None else Some(required)
  }

  function Restricted(options: seq<HelpOption>, used: seq<string>, flags: seq<string>): seq<(string, string)> {
    if flags == [] then []
    else
      (match MissingMode(options, used, flags[0]) case None => [] case Some(mode) => [(flags[0], mode)])
      + Restricted(options, used, flags[1..])
  }

  function ModeRestrictedFlags(help: string, args: seq<string>, values: seq<string>): seq<(string, string)> {
    var used := UsedFlags(args, values);
    Restricted(OptionsOf(Lines(help)), used, used)
  }

  // The report holds exactly the flags in use whose option needs a mode the
  // arguments do not have.
  lemma {:induction false} RestrictedMember(
      options: seq<HelpOption>, used: seq<string>, flags: seq<string>, flag: string, mode: string)
    ensures (flag, mode) in Restricted(options, used, flags) <==>
            flag in flags && MissingMode(options, used, flag) == Some(mode)
    decreases |flags|
  {
    hide MissingMode;
    if flags != [] {
      RestrictedMember(options, used, flags[1..], flag, mode);
      assert flags == [flags[0]] + flags[1..];
    }
  }

  lemma {:induction false} RestrictedAppends(
      options: seq<HelpOption>, used: seq<string>, a: seq<string>, b: seq<string>)
    ensures Restricted(options, used, a + b) == Restricted(options, used, a) + Restricted(options, used, b)
    decreases |a|
  {
    hide MissingMode;
    if a == [] {
      assert a + b == b;
    } else {
      assert (a + b)[1..] == a[1..] + b;
      RestrictedAppends(options, used, a[1..], b);
    }
  }

  // Neither report depends on anything after the end-of-options marker.
  lemma NothingAfterMarkerCounts(
    help: string, args: seq<string>, rest: seq<string>, other: seq<string>, values: seq<string>,
    alphanumeric: char -> bool)
    ensures UsedFlags(args + ["--"] + rest, values) == UsedFlags(args + ["--"] + other, values)
    ensures UnlistedFlags(help, args + ["--"] + rest, values, alphanumeric)
         == UnlistedFlags(help, args + ["--"] + other, values, alphanumeric)
    ensures ModeRestrictedFlags(help, args + ["--"] + rest, values)
         == ModeRestrictedFlags(help, args + ["--"] + other, values)
  {
    MarkerEnds(args, rest);
    MarkerEnds(args, other);
    var end := EndOfOptions(args + ["--"]);
    assert (args + ["--"] + rest)[..end] == (args + ["--"])[..end] == (args + ["--"] + other)[..end];
  }

  lemma {:induction false} MarkerEnds(args: seq<string>, rest: seq<string>)
    ensures EndOfOptions(args + ["--"] + rest) == EndOfOptions(args + ["--"]) <= |args|
    decreases |args|
  {
    if args == [] {
      assert ["--"] + rest == args + ["--"] + rest;
    } else {
      assert (args + ["--"] + rest)[1..] == args[1..] + ["--"] + rest;
      assert (args + ["--"])[1..] == args[1..] + ["--"];
      MarkerEnds(args[1..], rest);
    }
  }
}
