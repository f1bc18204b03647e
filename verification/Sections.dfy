/**
 Splitting a specification into numbered sections.

 A line is given with what the patterns say about it: whether it looks like a table-of-contents row, and if it
 has the form of a heading, its number, its title and the outcome of the remaining tests. With a table of
 contents a heading must be listed there; without one its number must be able to follow the current section.
 */
module Sections {
  import opened Options

  type Number = seq<nat>

  datatype Heading = Heading(
    number: string,
    parsed: Number,
    title: string,
    plausible: bool,
    listed: bool,
    keyword: bool)

  datatype Line = Line(text: string, tocLike: bool, heading: Option<Heading>)

  datatype Section = Section(number: string, parsed: Number, title: string, body: seq<Line>)

  const FRONT_MATTER := Section("0", [], "(front matter)", [])

  // ---------------------------------------------------------------------
  // Which number may follow which
  // ---------------------------------------------------------------------

  predicate IsFirstChild(current: Number, candidate: Number) {
    candidate == current + [1]
  }

  /** A later sibling of the current section or of one of its ancestors, skipping at most two numbers. */
  predicate IsLaterSibling(current: Number, candidate: Number) {
    && 0 < |candidate| <= |current|
    && var n := |candidate| - 1;
       candidate[..n] == current[..n] && current[n] < candidate[n] <= current[n] + 3
  }

  predicate Follows(current: Number, candidate: Number) {
    IsFirstChild(current, candidate) || IsLaterSibling(current, candidate)
  }

  /** Python's `s[:n]`, which stops at the end. */
  function Upto(s: Number, n: nat): Number {
    if n <= |s| then s[..n] else s
  }

  method IsSuccessor(current: Number, candidate: Number) returns (r: bool)
    ensures r <==> Follows(current, candidate)
  {
    if candidate == [] {
      return false;
    }
    var last := |candidate| - 1;
    if candidate[..last] == current && candidate[last] == 1 {
      assert candidate == candidate[..last] + [1];
      return true;
    }
    for level := 0 to |candidate|
      invariant level == |candidate| ==> !IsLaterSibling(current, candidate)
    {
      if Upto(candidate, level) != Upto(current, level) {
        continue;
      }
      if level < |current| && |candidate| == level + 1 && current[level] < candidate[level] <= current[level] + 3 {
        return true;
      }
    }
    return false;
  }

  /** Section order: compare component by component, a parent before its children. */
  predicate Before(a: Number, b: Number) {
    if b == [] then false
    else if a == [] then true
    else a[0] < b[0] || (a[0] == b[0] && Before(a[1..], b[1..]))
  }

  lemma {:induction false} BeforeExtension(a: Number, tail: Number)
    requires tail != []
    ensures Before(a, a + tail)
  {
    if a != [] {
      assert (a + tail)[1..] == a[1..] + tail;
      BeforeExtension(a[1..], tail);
    }
  }

  lemma {:induction false} BeforeAtDifference(a: Number, b: Number, n: nat)
    requires n < |a| && n < |b| && a[..n] == b[..n] && a[n] < b[n]
    ensures Before(a, b)
  {
    if n > 0 {
      assert a[0] == a[..n][0] == b[..n][0] == b[0];
      assert a[1..][..n - 1] == a[..n][1..] == b[..n][1..] == b[1..][..n - 1];
      BeforeAtDifference(a[1..], b[1..], n - 1);
    }
  }

  lemma FollowerComesLater(current: Number, candidate: Number)
    requires Follows(current, candidate)
    ensures Before(current, candidate)
  {
    if IsFirstChild(current, candidate) {
      BeforeExtension(current, [1]);
    } else {
      BeforeAtDifference(current, candidate, |candidate| - 1);
    }
  }

  lemma {:induction false} BeforeTransitive(a: Number, b: Number, c: Number)
    requires Before(a, b) && Before(b, c)
    ensures Before(a, c)
  {
    if a != [] && a[0] == b[0] == c[0] {
      BeforeTransitive(a[1..], b[1..], c[1..]);
    }
  }

  lemma {:induction false} BeforeIrreflexive(a: Number)
    ensures !Before(a, a)
  {
    if a != [] {
      BeforeIrreflexive(a[1..]);
    }
  }

  // ---------------------------------------------------------------------
  // A list of numbers each of which follows the one before
  // ---------------------------------------------------------------------

  /** The current section after the first `n` numbers. */
  function Last(numbers: seq<Number>): Number {
    if numbers == [] then [] else numbers[|numbers| - 1]
  }

  ghost predicate Chained(numbers: seq<Number>) {
    numbers == [] || (Chained(numbers[..|numbers| - 1]) && Follows(Last(numbers[..|numbers| - 1]), Last(numbers)))
  }

  ghost predicate Increasing(numbers: seq<Number>) {
    forall i, j :: 0 <= i < j < |numbers| ==> Before(numbers[i], numbers[j])
  }

  /** Every ancestor of a listed number is listed before it. */
  ghost predicate ParentsFirst(numbers: seq<Number>) {
    forall j, n :: 0 <= j < |numbers| && 0 < n < |numbers[j]| ==> numbers[j][..n] in numbers[..j]
  }

  lemma {:induction false} ChainedNumbersIncrease(numbers: seq<Number>)
    requires Chained(numbers)
    ensures Increasing(numbers)
    ensures forall i :: 0 <= i < |numbers| ==> numbers[i] != []
    ensures numbers != [] ==> numbers[0] == [1]
  {
    if numbers != [] {
      var init, last := numbers[..|numbers| - 1], Last(numbers);
      ChainedNumbersIncrease(init);
      FollowerComesLater(Last(init), last);
      forall i | 0 <= i < |init| ensures Before(numbers[i], last) {
        if i < |init| - 1 {
          assert Before(init[i], Last(init));
          BeforeTransitive(init[i], Last(init), last);
        }
      }
      forall i, j | 0 <= i < j < |numbers| ensures Before(numbers[i], numbers[j]) {
        if j < |init| {
          assert Before(init[i], init[j]);
        }
      }
    }
  }

  /** Accepted numbers are all different. */
  lemma ChainedNumbersNeverRepeat(numbers: seq<Number>)
    requires Chained(numbers)
    ensures forall i, j :: 0 <= i < j < |numbers| ==> numbers[i] != numbers[j]
  {
    ChainedNumbersIncrease(numbers);
    forall i, j | 0 <= i < j < |numbers| ensures numbers[i] != numbers[j] {
      assert Before(numbers[i], numbers[j]);
      BeforeIrreflexive(numbers[i]);
    }
  }

  /** Accepted numbers form a tree: no section is accepted before its parent. */
  lemma {:induction false} ChainedNumbersHaveParents(numbers: seq<Number>)
    requires Chained(numbers)
    ensures ParentsFirst(numbers)
  {
    if numbers != [] {
      var init, last := numbers[..|numbers| - 1], Last(numbers);
      ChainedNumbersHaveParents(init);
      forall n | 0 < n < |last| ensures last[..n] in init {
        assert last[..n] == Last(init)[..n];
        if n == |Last(init)| {
          assert last[..n] == Last(init);
        } else {
          assert Last(init)[..n] in init[..|init| - 1];
        }
      }
      forall j, n | 0 <= j < |numbers| && 0 < n < |numbers[j]| ensures numbers[j][..n] in numbers[..j] {
        if j < |init| {
          assert init[j][..n] in init[..j];
          assert numbers[..j] == init[..j];
        } else {
          assert numbers[..j] == init;
        }
      }
    }
  }

  // ---------------------------------------------------------------------
  // Splitting a document
  // ---------------------------------------------------------------------

  /** Lines that are neither above the end of the table of contents nor shaped like one of its rows. */
  function Kept(lines: seq<Line>, tocEnd: nat, n: nat): seq<Line>
    requires n <= |lines|
  {
    if n == 0 then []
    else Kept(lines, tocEnd, n - 1) + if n - 1 <= tocEnd || lines[n - 1].tocLike then [] else [lines[n - 1]]
  }

  /** Where the kept lines stand: after the table of contents, and not shaped like one of its rows. */
  predicate IsKept(lines: seq<Line>, tocEnd: nat, i: nat)
    requires i < |lines|
  {
    i > tocEnd && !lines[i].tocLike
  }

  ghost predicate KeptAt(lines: seq<Line>, tocEnd: nat, n: nat, at: seq<nat>)
    requires n <= |lines|
  {
    && (forall a, b :: 0 <= a < b < |at| ==> at[a] < at[b])
    && (forall a :: 0 <= a < |at| ==> at[a] < n && IsKept(lines, tocEnd, at[a]))
    && (forall i :: 0 <= i < n && IsKept(lines, tocEnd, i) ==> i in at)
    && Kept(lines, tocEnd, n) == seq(|at|, a requires 0 <= a < |at| && at[a] < |lines| => lines[at[a]])
  }

  /** The kept lines are just those, in order. */
  lemma {:induction false} KeptLines(lines: seq<Line>, tocEnd: nat, n: nat) returns (at: seq<nat>)
    requires n <= |lines|
    ensures KeptAt(lines, tocEnd, n, at)
  {
    if n == 0 {
      at := [];
    } else {
      at := KeptLines(lines, tocEnd, n - 1);
      if IsKept(lines, tocEnd, n - 1) {
        at := at + [n - 1];
      }
    }
  }

  /** What a document becomes: each kept line as a heading or as body. */
  datatype Item = Title(number: string, title: string) | Body(line: Line)

  function Bodies(lines: seq<Line>): seq<Item> {
    seq(|lines|, i requires 0 <= i < |lines| => Body(lines[i]))
  }

  function Items(sections: seq<Section>): seq<Item> {
    if sections == [] then []
    else
      var s := sections[|sections| - 1];
      Items(sections[..|sections| - 1])
      + (if |sections| == 1 then [] else [Title(s.number, s.title)])
      + Bodies(s.body)
  }

  /** Whether a kept line opens a section when `current` is the last one opened. */
  predicate Opens(line: Line, hasToc: bool, current: Number) {
    && line.heading.Some? && line.heading.value.plausible
    && if hasToc then line.heading.value.listed
       else Follows(current, line.heading.value.parsed) && !line.heading.value.keyword
  }

  /** The kept lines read in order: what each becomes, and the numbers of the sections opened. */
  function Transcript(kept: seq<Line>, hasToc: bool): (seq<Item>, seq<Number>) {
    if kept == [] then ([], [])
    else
      var (items, numbers) := Transcript(kept[..|kept| - 1], hasToc);
      var line := kept[|kept| - 1];
      if Opens(line, hasToc, Last(numbers))
      then (items + [Title(line.heading.value.number, line.heading.value.title)], numbers + [line.heading.value.parsed])
      else (items + [Body(line)], numbers)
  }

  predicate LandsAs(line: Line, item: Item) {
    item == Body(line) || (line.heading.Some? && item == Title(line.heading.value.number, line.heading.value.title))
  }

  /** Every kept line lands once, in its place, as a heading or as body. */
  lemma {:induction false} TranscriptAccountsForEveryLine(kept: seq<Line>, hasToc: bool)
    ensures |Transcript(kept, hasToc).0| == |kept|
    ensures forall i :: 0 <= i < |kept| ==> LandsAs(kept[i], Transcript(kept, hasToc).0[i])
  {
    if kept != [] {
      var init := kept[..|kept| - 1];
      TranscriptAccountsForEveryLine(init, hasToc);
      assert Transcript(kept, hasToc).0[..|init|] == Transcript(init, hasToc).0;
      assert LandsAs(kept[|init|], Transcript(kept, hasToc).0[|init|]);
    }
  }

  /** Without a table of contents the sections opened are numbered in strictly increasing order, parents first. */
  lemma {:induction false} SectionsAreInOrder(kept: seq<Line>)
    ensures var numbers := Transcript(kept, false).1;
            && Increasing(numbers) && ParentsFirst(numbers)
            && (numbers != [] ==> numbers[0] == [1])
            && forall i, j :: 0 <= i < j < |numbers| ==> numbers[i] != numbers[j]
  {
    TranscriptIsChained(kept);
    var numbers := Transcript(kept, false).1;
    ChainedNumbersIncrease(numbers);
    ChainedNumbersNeverRepeat(numbers);
    ChainedNumbersHaveParents(numbers);
  }

  /** The number of the last section opened by the first `i` kept lines. */
  function CurrentAt(kept: seq<Line>, hasToc: bool, i: nat): Number
    requires i <= |kept|
  {
    Last(Transcript(kept[..i], hasToc).1)
  }

  predicate HeadingOpens(h: Heading, hasToc: bool, current: Number) {
    && h.plausible
    && (hasToc ==> h.listed)
    && (!hasToc ==> !h.keyword && (IsFirstChild(current, h.parsed) || IsLaterSibling(current, h.parsed)))
  }

  /**
   A kept line becomes a heading exactly when it has the form of one and, with a table of contents, is listed there,
   or without one can follow the current section and holds no keyword; it is then the current section.
   */
  lemma {:induction false} LineOpensIff(kept: seq<Line>, hasToc: bool, i: nat)
    requires i < |kept|
    ensures |Transcript(kept, hasToc).0| == |kept|
    ensures var h, item := kept[i].heading, Transcript(kept, hasToc).0[i];
            if h.Some? && HeadingOpens(h.value, hasToc, CurrentAt(kept, hasToc, i))
            then item == Title(h.value.number, h.value.title) && CurrentAt(kept, hasToc, i + 1) == h.value.parsed
            else item == Body(kept[i]) && CurrentAt(kept, hasToc, i + 1) == CurrentAt(kept, hasToc, i)
  {
    TranscriptAccountsForEveryLine(kept, hasToc);
    var n := |kept| - 1;
    var init := kept[..n];
    TranscriptAccountsForEveryLine(init, hasToc);
    assert Transcript(kept, hasToc).0[..n] == Transcript(init, hasToc).0;
    if i < n {
      LineOpensIff(init, hasToc, i);
      assert init[..i] == kept[..i] && init[..i + 1] == kept[..i + 1];
    } else {
      assert kept[..i] == init && kept[..i + 1] == kept;
    }
  }

  /** A later sibling's last component skips at most two numbers: it is one, two or three more. */
  lemma SiblingSkipsAtMostTwo(parent: Number, n: nat, rest: Number, m: nat)
    ensures IsLaterSibling(parent + [n] + rest, parent + [m]) <==> m == n + 1 || m == n + 2 || m == n + 3
    ensures IsFirstChild(parent, parent + [m]) <==> m == 1
  {
    var current, candidate := parent + [n] + rest, parent + [m];
    assert candidate[..|parent|] == parent && current[..|parent|] == parent;
    assert current[|parent|] == n && candidate[|parent|] == m;
    assert (parent + [m])[|parent|] == m && (parent + [1])[|parent|] == 1;
  }

  lemma {:induction false} TranscriptIsChained(kept: seq<Line>)
    ensures Chained(Transcript(kept, false).1)
  {
    if kept != [] {
      var init := kept[..|kept| - 1];
      TranscriptIsChained(init);
      var before, after := Transcript(init, false).1, Transcript(kept, false).1;
      if after != before {
        assert after[..|after| - 1] == before;
      }
    }
  }

  function Numbers(sections: seq<Section>): seq<Number> {
    seq(|sections|, i requires 0 <= i < |sections| => sections[i].parsed)
  }

  lemma AppendBody(sections: seq<Section>, line: Line)
    requires sections != []
    ensures var n := |sections| - 1;
            Items(sections[n := sections[n].(body := sections[n].body + [line])]) == Items(sections) + [Body(line)]
  {
    var n := |sections| - 1;
    var sections' := sections[n := sections[n].(body := sections[n].body + [line])];
    assert sections'[..n] == sections[..n];
    assert Bodies(sections[n].body + [line]) == Bodies(sections[n].body) + [Body(line)];
  }

  lemma AppendSection(sections: seq<Section>, s: Section)
    requires sections != [] && s.body == []
    ensures Items(sections + [s]) == Items(sections) + [Title(s.number, s.title)]
  {
    assert (sections + [s])[..|sections|] == sections;
  }

  ghost predicate ReadsAs(items: seq<Item>, numbers: seq<Number>, kept: seq<Line>, hasToc: bool) {
    items == Transcript(kept, hasToc).0 && numbers == Transcript(kept, hasToc).1
  }

  lemma ReadOneMore(items: seq<Item>, numbers: seq<Number>, kept: seq<Line>, hasToc: bool, line: Line)
    requires ReadsAs(items, numbers, kept, hasToc)
    ensures if Opens(line, hasToc, Last(numbers))
            then ReadsAs(items + [Title(line.heading.value.number, line.heading.value.title)],
                         numbers + [line.heading.value.parsed], kept + [line], hasToc)
            else ReadsAs(items + [Body(line)], numbers, kept + [line], hasToc)
  {
    assert (kept + [line])[..|kept|] == kept;
  }

  /** The sections so far are the reading of the lines kept so far. */
  ghost predicate Reading(sections: seq<Section>, current: Number, kept: seq<Line>, hasToc: bool) {
    && sections != [] && sections[0].(body := []) == FRONT_MATTER
    && ReadsAs(Items(sections), Numbers(sections)[1..], kept, hasToc)
    && current == Last(Numbers(sections)[1..])
  }

  function Opened(sections: seq<Section>, h: Heading): seq<Section> {
    sections + [Section(h.number, h.parsed, h.title, [])]
  }

  function Extended(sections: seq<Section>, line: Line): seq<Section>
    requires sections != []
  {
    var n := |sections| - 1;
    sections[n := sections[n].(body := sections[n].body + [line])]
  }

  lemma OpenedSections(sections: seq<Section>, h: Heading)
    requires sections != []
    ensures Items(Opened(sections, h)) == Items(sections) + [Title(h.number, h.title)]
    ensures Numbers(Opened(sections, h))[1..] == Numbers(sections)[1..] + [h.parsed]
    ensures Opened(sections, h)[0] == sections[0]
  {
    AppendSection(sections, Section(h.number, h.parsed, h.title, []));
  }

  lemma ExtendedSections(sections: seq<Section>, line: Line)
    requires sections != []
    ensures Items(Extended(sections, line)) == Items(sections) + [Body(line)]
    ensures Numbers(Extended(sections, line)) == Numbers(sections)
    ensures Extended(sections, line) != [] && Extended(sections, line)[0].(body := []) == sections[0].(body := [])
  {
    AppendBody(sections, line);
  }

  lemma OpenSection(sections: seq<Section>, current: Number, kept: seq<Line>, hasToc: bool, line: Line)
    requires Reading(sections, current, kept, hasToc) && Opens(line, hasToc, current)
    ensures Reading(Opened(sections, line.heading.value), line.heading.value.parsed, kept + [line], hasToc)
  {
    ReadOneMore(Items(sections), Numbers(sections)[1..], kept, hasToc, line);
    OpenedSections(sections, line.heading.value);
  }

  lemma ExtendSection(sections: seq<Section>, current: Number, kept: seq<Line>, hasToc: bool, line: Line)
    requires Reading(sections, current, kept, hasToc) && !Opens(line, hasToc, current)
    ensures Reading(Extended(sections, line), current, kept + [line], hasToc)
  {
    ReadOneMore(Items(sections), Numbers(sections)[1..], kept, hasToc, line);
    ExtendedSections(sections, line);
  }

  /** One kept line: a heading that is accepted opens a section, anything else joins the last one. */
  method AddLine(sections: seq<Section>, current: Number, line: Line, hasToc: bool)
    returns (sections': seq<Section>, current': Number)
    requires sections != []
    ensures Opens(line, hasToc, current) ==>
              sections' == Opened(sections, line.heading.value) && current' == line.heading.value.parsed
    ensures !Opens(line, hasToc, current) ==> sections' == Extended(sections, line) && current' == current
  {
    if line.heading.Some? && line.heading.value.plausible {
      var h := line.heading.value;
      var accepted;
      if hasToc {
        accepted := h.listed;
      } else {
        var successor := IsSuccessor(current, h.parsed);
        accepted := successor && !h.keyword;
      }
      if accepted {
        return sections + [Section(h.number, h.parsed, h.title, [])], h.parsed;
      }
    }
    var n := |sections| - 1;
    return sections[n := sections[n].(body := sections[n].body + [line])], current;
  }

  method ParseSections(lines: seq<Line>, hasToc: bool, tocEnd: nat) returns (sections: seq<Section>)
    ensures sections != [] && sections[0].(body := []) == FRONT_MATTER
    ensures Items(sections) == Transcript(Kept(lines, tocEnd, |lines|), hasToc).0
    ensures Numbers(sections)[1..] == Transcript(Kept(lines, tocEnd, |lines|), hasToc).1
  {
    sections := [FRONT_MATTER];
    var current: Number := [];
    StartReading(hasToc);
    var index := 0;
    while index < |lines|
      invariant index <= |lines|
      invariant Reading(sections, current, Kept(lines, tocEnd, index), hasToc)
    {
      var line := lines[index];
      ghost var kept := Kept(lines, tocEnd, index);
      index := index + 1;
      if index - 1 <= tocEnd || line.tocLike {
        assert Kept(lines, tocEnd, index) == kept;
        continue;
      }
      assert Kept(lines, tocEnd, index) == kept + [line];
      if Opens(line, hasToc, current) {
        OpenSection(sections, current, kept, hasToc, line);
      } else {
        ExtendSection(sections, current, kept, hasToc, line);
      }
      sections, current := AddLine(sections, current, line, hasToc);
    }
  }

  lemma StartReading(hasToc: bool)
    ensures Reading([FRONT_MATTER], [], [], hasToc)
  {
    assert [FRONT_MATTER][..0] == [];
    assert Bodies([]) == [];
  }
}
