// Text the way the platform's string library cuts it: whitespace, words, lines.
// Indents are measured in bytes of UTF-8, as the library measures them.
module Text {

  // The characters Unicode calls White_Space.
  predicate IsSpace(c: char) {
    || '\t' <= c <= '\r' || c == ' ' || c == '\U{85}' || c == '\U{A0}' || c == '\U{1680}'
    || '\U{2000}' <= c <= '\U{200A}' || c == '\U{2028}' || c == '\U{2029}' || c == '\U{202F}'
    || c == '\U{205F}' || c == '\U{3000}'
  }

  predicate AllSpace(s: string) {
    forall i :: 0 <= i < |s| ==> IsSpace(s[i])
  }

  // A word: something, with no whitespace in it.
  predicate Word(w: string) {
    w != "" && forall i :: 0 <= i < |w| ==> !IsSpace(w[i])
  }

  function Utf8Width(c: char): nat {
    if c < '\U{80}' then 1 else if c < '\U{800}' then 2 else if c < '\U{10000}' then 3 else 4
  }

  function ByteLen(s: string): nat {
    if s == "" then 0 else Utf8Width(s[0]) + ByteLen(s[1..])
  }

  function TrimStart(s: string): (t: string)
    ensures |t| <= |s|
    ensures t != "" ==> !IsSpace(t[0])
  {
    if s != "" && IsSpace(s[0]) then TrimStart(s[1..]) else s
  }

  function TrimEnd(s: string): string {
    if s != "" && IsSpace(s[|s| - 1]) then TrimEnd(s[..|s| - 1]) else s
  }

  function Trim(s: string): string {
    TrimEnd(TrimStart(s))
  }

  // The characters before the first whitespace.
  function FirstWord(s: string): (w: string)
    ensures w <= s
    ensures s != "" && !IsSpace(s[0]) ==> w != ""
  {
    if s == "" || IsSpace(s[0]) then "" else [s[0]] + FirstWord(s[1..])
  }

  function SplitWhitespace(s: string): seq<string>
    decreases |s|
  {
    var t := TrimStart(s);
    if t == "" then [] else [FirstWord(t)] + SplitWhitespace(t[|FirstWord(t)|..])
  }

  // ---------- Laws ----------

  // Padding in front of text that does not start with a space is what trimming
  // takes off.
  lemma {:induction false} TrimStartDropsPad(pad: string, s: string)
    requires AllSpace(pad) && (s != "" ==> !IsSpace(s[0]))
    ensures TrimStart(pad + s) == s
    decreases |pad|
  {
    if pad == "" {
      assert pad + s == s;
    } else {
      assert (pad + s)[1..] == pad[1..] + s;
      TrimStartDropsPad(pad[1..], s);
    }
  }

  // Trimming the end takes off the longest run of whitespace there.
  lemma {:induction false} TrimEndDropsPad(s: string, pad: string)
    requires AllSpace(pad) && (s != "" ==> !IsSpace(s[|s| - 1]))
    ensures TrimEnd(s + pad) == s
    decreases |pad|
  {
    if pad == "" {
      assert s + pad == s;
    } else {
      assert (s + pad)[..|s + pad| - 1] == s + pad[..|pad| - 1];
      TrimEndDropsPad(s, pad[..|pad| - 1]);
    }
  }

  // A text is as long as its characters: one byte each, and one more for every limit of
  // UTF-8 (section 3 of RFC 3629) that the character reaches.
  lemma {:induction false} ByteLenAppends(s: string, c: char)
    ensures ByteLen([]) == 0
    ensures ByteLen(s + [c]) == ByteLen(s) + 1
              + (if c as int >= 0x80 then 1 else 0) + (if c as int >= 0x800 then 1 else 0)
              + (if c as int >= 0x10000 then 1 else 0)
    decreases |s|
  {
    if s != "" {
      assert (s + [c])[1..] == s[1..] + [c];
      ByteLenAppends(s[1..], c);
    }
  }

  lemma {:induction false} FirstWordStops(w: string, rest: string)
    requires (forall i :: 0 <= i < |w| ==> !IsSpace(w[i])) && (rest != "" ==> IsSpace(rest[0]))
    ensures FirstWord(w + rest) == w
    decreases |w|
  {
    if w == "" {
      assert w + rest == rest;
    } else {
      assert (w + rest)[1..] == w[1..] + rest;
      FirstWordStops(w[1..], rest);
    }
  }

  lemma SplitOne(w: string, rest: string)
    requires Word(w) && (rest != "" ==> IsSpace(rest[0]))
    ensures SplitWhitespace(w + rest) == [w] + SplitWhitespace(rest)
  {
    FirstWordStops(w, rest);
    assert TrimStart(w + rest) == w + rest;
    assert (w + rest)[|w|..] == rest;
  }

  lemma {:induction false} FirstWordIs(s: string)
    requires s != "" && !IsSpace(s[0])
    ensures Word(FirstWord(s))
    ensures |FirstWord(s)| < |s| ==> IsSpace(s[|FirstWord(s)|])
    decreases |s|
  {
    if |s| > 1 && !IsSpace(s[1]) {
      FirstWordIs(s[1..]);
    }
  }

  // A space between two texts keeps their words apart.
  lemma {:induction false} SplitAppends(a: string, b: string)
    ensures SplitWhitespace(a + " " + b) == SplitWhitespace(a) + SplitWhitespace(b)
    decreases |a|
  {
    hide SplitWhitespace, FirstWord, TrimStart;
    if a == "" {
      SplitSkipsSpace("" + " " + b);
      assert ("" + " " + b)[1..] == b;
      NoWords();
    } else if IsSpace(a[0]) {
      assert (a + " " + b)[1..] == a[1..] + " " + b;
      SplitSkipsSpace(a);
      SplitSkipsSpace(a + " " + b);
      SplitAppends(a[1..], b);
    } else {
      var w := FirstWord(a);
      var rest := a[|w|..];
      FirstWordIs(a);
      assert a == w + rest && a + " " + b == w + (rest + " " + b);
      SplitOne(w, rest);
      SplitOne(w, rest + " " + b);
      SplitAppends(rest, b);
    }
  }

  lemma SplitSkipsSpace(s: string)
    requires s != "" && IsSpace(s[0])
    ensures SplitWhitespace(s) == SplitWhitespace(s[1..])
  {
  }

  lemma NoWords()
    ensures SplitWhitespace("") == []
  {
  }
}
