/** The list parser `response_to_list`: a character-by-character scan that turns a
    numbered-list reply of the language model into a list of item strings.

    The scan is specified as a fold of `Step` over the input (`Run`), finished by
    `Finish`; `ResponseToList` is the loop itself, proved equal to that fold, and
    the lemmas below state what the fold guarantees about its output. */
module ListParser {
  import opened Text

  /** The scan's state: the items emitted so far and the pending buffer. */
  datatype Scanner = Scanner(items: seq<string>, buffer: string)

  const Start: Scanner := Scanner([], "")

  /** A character the scan keeps: neither a digit nor ASCII punctuation. */
  predicate Kept(c: char) {
    !IsDigit(c) && !IsPunctuation(c)
  }

  /** One iteration of the scan: keep the character, then emit the stripped
      buffer when the character is a newline and the buffer is not blank. */
  function Step(st: Scanner, c: char): Scanner
  {
    var buffer := if Kept(c) then st.buffer + [c] else st.buffer;
    if c == '\n' && Strip(buffer) != "" then Scanner(st.items + [Strip(buffer)], "")
    else Scanner(st.items, buffer)
  }

  /** The scan of `s` from state `st`. */
  function Run(st: Scanner, s: string): Scanner
  {
    if s == [] then st else Step(Run(st, s[..|s| - 1]), s[|s| - 1])
  }

  /** After the scan: a non-empty leftover buffer is emitted stripped. The test is
      on the buffer itself, not on its stripped form. */
  function Finish(st: Scanner): seq<string>
  {
    if st.buffer != "" then st.items + [Strip(st.buffer)] else st.items
  }

  function Parse(response: string): seq<string>
  {
    Finish(Run(Start, response))
  }

  /** `response_to_list`: the character loop, proved equal to the fold `Parse`. */
  method ResponseToList(response: string) returns (responseList: seq<string>)
    ensures responseList == Parse(response)
    ensures forall i :: 0 <= i < |responseList| ==> WellFormed(responseList[i])
  {
    responseList := [];
    var item := "";
    for i := 0 to |response|
      invariant Scanner(responseList, item) == Run(Start, response[..i])
    {
      var c := response[i];
      assert response[..i + 1][..i] == response[..i];
      if !IsDigit(c) && !IsPunctuation(c) {
        item := item + [c];
      }
      if c == '\n' && Strip(item) != "" {
        responseList := responseList + [Strip(item)];
        item := "";
      }
    }
    assert response[..|response|] == response;
    if item != "" {
      responseList := responseList + [Strip(item)];
    }
    ParseWellFormed(response);
  }

  // ---------------------------------------------------------------------------
  // What the scan guarantees

  /** Only kept characters, no whitespace at either end, no newline. */
  predicate WellFormed(x: string) {
    (forall k :: 0 <= k < |x| ==> Kept(x[k])) && IsStripped(x) && '\n' !in x
  }

  /** Every newline in the buffer has only whitespace up to and including it. */
  predicate NewlinesLeading(b: string) {
    forall j :: 0 <= j < |b| && b[j] == '\n' ==> AllSpace(b[..j + 1])
  }

  /** What holds of every state the scan reaches from `Start`. */
  predicate Reachable(st: Scanner) {
    (forall i :: 0 <= i < |st.items| ==> WellFormed(st.items[i]) && st.items[i] != "")
    && (forall k :: 0 <= k < |st.buffer| ==> Kept(st.buffer[k]))
    && NewlinesLeading(st.buffer)
  }

  /** Stripping a buffer whose newlines (the last character aside) sit in a
      whitespace-only prefix leaves no newline. */
  lemma {:induction false} StripNoNewline(b: string)
    requires forall j :: 0 <= j < |b| - 1 && b[j] == '\n' ==> AllSpace(b[..j])
    ensures '\n' !in Strip(b)
  {
    if b != [] && IsSpace(b[0]) {
      forall j | 0 <= j < |b[1..]| - 1 && b[1..][j] == '\n'
        ensures AllSpace(b[1..][..j])
      {
        assert AllSpace(b[..j + 1]);
        assert b[1..][..j] == b[..j + 1][1..];
      }
      StripNoNewline(b[1..]);
      assert TrimStart(b) == TrimStart(b[1..]);
    } else {
      // No newline before the last position: it would make b[0] whitespace.
      forall j | 0 <= j < |b| - 1
        ensures b[j] != '\n'
      {
      }
      var r := TrimEnd(b);
      TrimEndSpec(b);
      assert r == Strip(b);
      if r != [] && r[|r| - 1] == '\n' {
        assert false;
      }
      assert forall j :: 0 <= j < |r| ==> r[j] == b[j];
    }
  }

  /** A buffer of kept characters whose newlines (the last character aside) sit
      in a whitespace-only prefix strips to a well-formed item. */
  lemma StripWellFormed(b: string)
    requires forall k :: 0 <= k < |b| ==> Kept(b[k])
    requires forall j :: 0 <= j < |b| - 1 && b[j] == '\n' ==> AllSpace(b[..j])
    ensures WellFormed(Strip(b))
  {
    StripNoNewline(b);
    StripChars(b);
    var x := Strip(b);
    forall k | 0 <= k < |x| ensures Kept(x[k]) {
      assert x[k] in b;
    }
  }

  /** `NewlinesLeading` allows the weaker premise of `StripWellFormed`, also
      after one more character. */
  lemma LeadingPrefix(b: string, c: char)
    requires NewlinesLeading(b)
    ensures forall j :: 0 <= j < |b + [c]| - 1 && (b + [c])[j] == '\n' ==> AllSpace((b + [c])[..j])
    ensures forall j :: 0 <= j < |b| - 1 && b[j] == '\n' ==> AllSpace(b[..j])
  {
    forall j | 0 <= j < |b| && b[j] == '\n'
      ensures AllSpace((b + [c])[..j]) && AllSpace(b[..j])
    {
      assert AllSpace(b[..j + 1]);
      assert (b + [c])[..j] == b[..j + 1][..j];
      assert b[..j] == b[..j + 1][..j];
    }
  }

  /** Appending a character other than a newline keeps `NewlinesLeading`. */
  lemma GrowLeading(b: string, c: char)
    requires NewlinesLeading(b) && c != '\n'
    ensures NewlinesLeading(b + [c])
  {
    var buffer := b + [c];
    forall j | 0 <= j < |buffer| && buffer[j] == '\n'
      ensures AllSpace(buffer[..j + 1])
    {
      assert buffer[..j + 1] == b[..j + 1];
    }
  }

  /** A whitespace-only buffer satisfies `NewlinesLeading`. */
  lemma BlankLeading(b: string)
    requires AllSpace(b)
    ensures NewlinesLeading(b)
  {
    forall j | 0 <= j < |b| && b[j] == '\n'
      ensures AllSpace(b[..j + 1])
    {
      assert forall k :: 0 <= k < j + 1 ==> b[..j + 1][k] == b[k];
    }
  }

  /** Every step preserves `Reachable`. */
  lemma StepReachable(st: Scanner, c: char)
    requires Reachable(st)
    ensures Reachable(Step(st, c))
  {
    var b := st.buffer;
    if !Kept(c) {
      assert Step(st, c) == st;
    } else if c != '\n' {
      GrowLeading(b, c);
    } else if Strip(b + [c]) == "" {
      BlankLeading(b + [c]);
    } else {
      var buffer := b + [c];
      LeadingPrefix(b, c);
      StripWellFormed(buffer);
      var x := Strip(buffer);
      assert Step(st, c) == Scanner(st.items + [x], "");
      var items := st.items + [x];
      assert forall i :: 0 <= i < |items| ==> WellFormed(items[i]) && items[i] != "";
    }
  }

  lemma {:induction false} RunReachable(s: string)
    ensures Reachable(Run(Start, s))
  {
    if s != [] {
      RunReachable(s[..|s| - 1]);
      StepReachable(Run(Start, s[..|s| - 1]), s[|s| - 1]);
    }
  }

  /** Items contain no digit, no ASCII punctuation, no newline and no whitespace
      at either end; only the last may be empty, and it is exactly when the
      leftover buffer is non-empty but all whitespace. */
  lemma ParseWellFormed(s: string)
    ensures forall i :: 0 <= i < |Parse(s)| ==> WellFormed(Parse(s)[i])
    ensures forall i :: 0 <= i < |Parse(s)| - 1 ==> Parse(s)[i] != ""
    ensures (|Parse(s)| > 0 && Parse(s)[|Parse(s)| - 1] == "")
        <==> (Run(Start, s).buffer != "" && AllSpace(Run(Start, s).buffer))
  {
    var st := Run(Start, s);
    RunReachable(s);
    if st.buffer != "" {
      LeadingPrefix(st.buffer, ' ');
      StripWellFormed(st.buffer);
    }
  }

  /** Number of occurrences of `c` in `s`. */
  function Count(c: char, s: string): nat
  {
    if s == [] then 0 else Count(c, s[..|s| - 1]) + (if s[|s| - 1] == c then 1 else 0)
  }

  /** At most one item per newline, plus one for the leftover buffer. */
  lemma {:induction false} ParseLength(s: string)
    ensures |Run(Start, s).items| <= Count('\n', s)
    ensures |Parse(s)| <= Count('\n', s) + 1
  {
    if s != [] {
      ParseLength(s[..|s| - 1]);
    }
  }

  /** The characters the scan keeps, in order. */
  function Filter(s: string): (r: string)
    ensures forall k :: 0 <= k < |r| ==> Kept(r[k])
    ensures |r| <= |s|
    ensures (forall k :: 0 <= k < |s| ==> Kept(s[k])) ==> r == s
  {
    if s == [] then ""
    else Filter(s[..|s| - 1]) + (if Kept(s[|s| - 1]) then [s[|s| - 1]] else "")
  }

  /** Without a newline nothing is emitted during the scan: the buffer is the
      kept characters. */
  lemma {:induction false} RunWithoutNewline(s: string)
    requires '\n' !in s
    ensures Run(Start, s) == Scanner([], Filter(s))
  {
    if s != [] {
      assert '\n' !in s[..|s| - 1];
      RunWithoutNewline(s[..|s| - 1]);
    }
  }

  /** A reply without a newline gives one item, its kept characters stripped,
      or no item when no character is kept (in particular for ""). */
  lemma ParseSingleLine(s: string)
    requires '\n' !in s
    ensures Filter(s) != "" ==> Parse(s) == [Strip(Filter(s))]
    ensures Filter(s) == "" ==> Parse(s) == []
  {
    RunWithoutNewline(s);
  }

  /** Digits and punctuation leave the scan's state unchanged. */
  lemma {:induction false} RunMarkers(st: Scanner, m: string)
    requires forall k :: 0 <= k < |m| ==> !Kept(m[k])
    ensures Run(st, m) == st
  {
    if m != [] {
      RunMarkers(st, m[..|m| - 1]);
    }
  }

  /** A reply made only of digits and punctuation (or the empty reply) gives
      the empty list. */
  lemma ParseOnlyMarkers(s: string)
    requires forall k :: 0 <= k < |s| ==> !Kept(s[k])
    ensures Parse(s) == []
  {
    RunMarkers(Start, s);
  }

  /** Scanning a concatenation is scanning its parts one after the other. */
  lemma {:induction false} RunAppend(st: Scanner, s: string, t: string)
    ensures Run(st, s + t) == Run(Run(st, s), t)
  {
    if t == [] {
      assert s + t == s;
    } else {
      assert (s + t)[..|s + t| - 1] == s + t[..|t| - 1];
      RunAppend(st, s, t[..|t| - 1]);
    }
  }

  /** An item the parser can reproduce: non-empty, stripped, with only kept
      characters and no newline. */
  predicate Item(x: string) {
    x != "" && WellFormed(x)
  }

  /** A line of kept characters without newline only grows the buffer. */
  lemma {:induction false} RunLine(st: Scanner, x: string)
    requires forall k :: 0 <= k < |x| ==> Kept(x[k])
    requires '\n' !in x
    ensures Run(st, x) == Scanner(st.items, st.buffer + x)
  {
    if x != [] {
      assert '\n' !in x[..|x| - 1];
      RunLine(st, x[..|x| - 1]);
      assert st.buffer + x[..|x| - 1] + [x[|x| - 1]] == st.buffer + x;
    }
  }

  /** A newline after a reproducible item emits it. */
  lemma NewlineEmits(items: seq<string>, x: string)
    requires Item(x)
    ensures Run(Scanner(items, x), "\n") == Scanner(items + [x], "")
  {
    assert "\n"[..0] == "";
    assert Kept('\n');
    StripAppendSpace(x, '\n');
    StripStripped(x);
  }

  /** From a state whose buffer is an item, a newline and a further item emit
      the first and leave the second in the buffer. */
  lemma RunNextLine(items: seq<string>, prev: string, head: string, last: string)
    requires Item(prev) && Item(last)
    requires Run(Start, head) == Scanner(items, prev)
    ensures Run(Start, head + "\n" + last) == Scanner(items + [prev], last)
  {
    calc {
      Run(Start, head + "\n" + last);
      { RunAppend(Start, head + "\n", last); }
      Run(Run(Start, head + "\n"), last);
      { RunAppend(Start, head, "\n"); }
      Run(Run(Scanner(items, prev), "\n"), last);
      { NewlineEmits(items, prev); }
      Run(Scanner(items + [prev], ""), last);
      { RunLine(Scanner(items + [prev], ""), last);
        assert "" + last == last; }
      Scanner(items + [prev], last);
    }
  }

  lemma {:induction false} RunJoin(xs: seq<string>)
    requires |xs| > 0
    requires forall i :: 0 <= i < |xs| ==> Item(xs[i])
    ensures Run(Start, Join("\n", xs)) == Scanner(xs[..|xs| - 1], xs[|xs| - 1])
  {
    var last := xs[|xs| - 1];
    assert Item(last);
    if |xs| == 1 {
      RunLine(Start, last);
    } else {
      var init := xs[..|xs| - 1];
      var prev := init[|init| - 1];
      assert Item(prev);
      RunJoin(init);
      RunNextLine(init[..|init| - 1], prev, Join("\n", init), last);
      assert init[..|init| - 1] + [prev] == init;
    }
  }

  /** A scan that ends with an item in the buffer emits it unchanged. */
  lemma FinishItem(s: string, items: seq<string>, last: string)
    requires Run(Start, s) == Scanner(items, last)
    requires IsStripped(last) && last != ""
    ensures Parse(s) == items + [last]
  {
    StripStripped(last);
  }

  /** `ParseJoin` once the scan of the join is known. */
  lemma ParseJoinFromRun(xs: seq<string>)
    requires |xs| > 0
    requires IsStripped(xs[|xs| - 1]) && xs[|xs| - 1] != ""
    requires Run(Start, Join("\n", xs)) == Scanner(xs[..|xs| - 1], xs[|xs| - 1])
    ensures Parse(Join("\n", xs)) == xs
  {
    FinishItem(Join("\n", xs), xs[..|xs| - 1], xs[|xs| - 1]);
    SplitLast(xs);
  }

  lemma SplitLast(xs: seq<string>)
    requires |xs| > 0
    ensures xs[..|xs| - 1] + [xs[|xs| - 1]] == xs
  {
  }

  /** Parsing the newline-join of reproducible items gives the items back. */
  lemma ParseJoin(xs: seq<string>)
    requires forall i :: 0 <= i < |xs| ==> Item(xs[i])
    ensures Parse(Join("\n", xs)) == xs
  {
    if |xs| > 0 {
      assert Item(xs[|xs| - 1]);
      RunJoin(xs);
      ParseJoinFromRun(xs);
    }
  }

  /** Scanning one character is one step. */
  lemma RunOne(st: Scanner, c: char)
    ensures Run(st, [c]) == Step(st, c)
  {
    assert [c][..0] == [];
  }

  /** A line of whitespace `c` and item `x` is emitted as `x` at its newline. */
  lemma LineEmits(items: seq<string>, c: char, x: string)
    requires IsSpace(c) && IsStripped(x) && x != []
    ensures Run(Scanner(items, [c] + x), "\n") == Scanner(items + [x], "")
  {
    assert Kept('\n');
    StripLine(c, x);
    RunOne(Scanner(items, [c] + x), '\n');
  }

  /** A numbered line `m c x \n` (marker `m`, whitespace `c`, item `x`) read
      from an empty buffer emits `x`. */
  lemma RunMarkedLine(st: Scanner, m: string, c: char, x: string)
    requires st.buffer == ""
    requires forall k :: 0 <= k < |m| ==> !Kept(m[k])
    requires IsSpace(c) && c != '\n' && Item(x)
    ensures Run(st, m + ([c] + x) + "\n") == Scanner(st.items + [x], "")
  {
    var line := [c] + x;
    calc {
      Run(st, m + line + "\n");
      { RunAppend(st, m + line, "\n");
        RunAppend(st, m, line); }
      Run(Run(Run(st, m), line), "\n");
      { RunMarkers(st, m);
        RunLine(st, line);
        assert st.buffer + line == line; }
      Run(Scanner(st.items, line), "\n");
      { LineEmits(st.items, c, x); }
      Scanner(st.items + [x], "");
    }
  }

  /** A numbered item followed by a blank line leaves a newline in the buffer,
      which the final test lets through as a trailing empty item. */
  lemma ParseTrailingBlankLine(m: string, c: char, x: string)
    requires forall k :: 0 <= k < |m| ==> !Kept(m[k])
    requires IsSpace(c) && c != '\n' && Item(x)
    ensures Parse(m + ([c] + x) + "\n" + "\n") == [x, ""]
  {
    var line := m + ([c] + x) + "\n";
    assert Kept('\n');
    calc {
      Run(Start, line + "\n");
      { RunAppend(Start, line, "\n"); }
      Run(Run(Start, line), "\n");
      { RunMarkedLine(Start, m, c, x);
        assert [] + [x] == [x]; }
      Run(Scanner([x], ""), "\n");
      { RunOne(Scanner([x], ""), '\n'); }
      Scanner([x], "\n");
    }
    assert AllSpace("\n");
  }

  /** Two numbered items, each ended by a newline, give exactly the two items. */
  lemma ParseTwoLines(m1: string, c1: char, x1: string, m2: string, c2: char, x2: string)
    requires forall k :: 0 <= k < |m1| ==> !Kept(m1[k])
    requires forall k :: 0 <= k < |m2| ==> !Kept(m2[k])
    requires IsSpace(c1) && c1 != '\n' && Item(x1)
    requires IsSpace(c2) && c2 != '\n' && Item(x2)
    ensures Parse(m1 + ([c1] + x1) + "\n" + (m2 + ([c2] + x2) + "\n")) == [x1, x2]
  {
    var first := m1 + ([c1] + x1) + "\n";
    var second := m2 + ([c2] + x2) + "\n";
    calc {
      Run(Start, first + second);
      { RunAppend(Start, first, second); }
      Run(Run(Start, first), second);
      { RunMarkedLine(Start, m1, c1, x1);
        assert [] + [x1] == [x1]; }
      Run(Scanner([x1], ""), second);
      { RunMarkedLine(Scanner([x1], ""), m2, c2, x2);
        assert [x1] + [x2] == [x1, x2]; }
      Scanner([x1, x2], "");
    }
  }

  /** The example of a whitespace-only leftover: `"1. A\n\n"` gives `["A", ""]`. */
  lemma TrailingEmptyItem()
    ensures Parse("1. A\n\n") == ["A", ""]
  {
    assert "1. A\n\n" == "1." + ([' '] + "A") + "\n" + "\n";
    ParseTrailingBlankLine("1.", ' ', "A");
  }

  /** Leading list markers are dropped. */
  lemma NumberedList()
    ensures Parse("1. Introduction\n2. History\n") == ["Introduction", "History"]
  {
    assert "1. Introduction\n2. History\n"
        == "1." + ([' '] + "Introduction") + "\n" + ("2." + ([' '] + "History") + "\n");
    ParseTwoLines("1.", ' ', "Introduction", "2.", ' ', "History");
  }
}
