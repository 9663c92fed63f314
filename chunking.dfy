/**
 * Chunking of the formatted text: split it on newlines and pack the lines
 * greedily, in order, into chunks. Each line is charged its length plus one
 * for its newline; a chunk is closed when the next line would push the
 * charge past the budget.
 */
module Chunking {

  /** `"\n".join(lines)`. */
  function Join(lines: seq<string>): string
  {
    if |lines| == 0 then ""
    else if |lines| == 1 then lines[0]
    else Join(lines[..|lines| - 1]) + "\n" + lines[|lines| - 1]
  }

  /** `s.split("\n")`: never empty, and "" splits into [""]. */
  function Split(s: string): (r: seq<string>)
    ensures |r| >= 1
  {
    if s == [] then [""]
    else
      var rest := Split(s[1..]);
      if s[0] == '\n' then [""] + rest else [[s[0]] + rest[0]] + rest[1..]
  }

  predicate NoNewlines(lines: seq<string>)
  {
    forall i | 0 <= i < |lines| :: '\n' !in lines[i]
  }

  lemma {:induction false} JoinCons(x: string, lines: seq<string>)
    requires |lines| >= 1
    ensures Join([x] + lines) == x + "\n" + Join(lines)
    decreases |lines|
  {
    if |lines| == 1 {
      assert ([x] + lines)[..1] == [x];
    } else {
      var init := lines[..|lines| - 1];
      JoinCons(x, init);
      assert ([x] + lines)[..|lines|] == [x] + init;
    }
  }

  /** The pieces of a split hold no newline. */
  lemma {:induction false} SplitNoNewlines(s: string)
    ensures NoNewlines(Split(s))
  {
    if s != [] {
      SplitNoNewlines(s[1..]);
      var rest := Split(s[1..]);
      if s[0] != '\n' {
        assert forall i | 1 <= i < |Split(s)| :: Split(s)[i] == rest[i];
      } else {
        assert forall i | 1 <= i < |Split(s)| :: Split(s)[i] == rest[i - 1];
      }
    }
  }

  /** Joining the pieces of a split gives the text back. */
  lemma {:induction false} JoinSplit(s: string)
    ensures Join(Split(s)) == s
  {
    if s != [] {
      JoinSplit(s[1..]);
      if s[0] == '\n' {
        JoinSplitNewline(s);
      } else {
        JoinSplitChar(s);
      }
    }
  }

  lemma JoinSplitNewline(s: string)
    requires s != [] && s[0] == '\n' && Join(Split(s[1..])) == s[1..]
    ensures Join(Split(s)) == s
  {
    var rest := Split(s[1..]);
    assert Split(s) == [""] + rest;
    JoinCons("", rest);
    assert s == "\n" + s[1..];
  }

  lemma JoinSplitChar(s: string)
    requires s != [] && s[0] != '\n' && Join(Split(s[1..])) == s[1..]
    ensures Join(Split(s)) == s
  {
    var rest := Split(s[1..]);
    assert Split(s) == [[s[0]] + rest[0]] + rest[1..];
    JoinConsChar(s[0], rest);
    assert s == [s[0]] + s[1..];
  }

  /** A character put in front of the first line goes in front of the joined text. */
  lemma {:induction false} JoinConsChar(c: char, lines: seq<string>)
    requires |lines| >= 1
    ensures Join([[c] + lines[0]] + lines[1..]) == [c] + Join(lines)
    decreases |lines|
  {
    var l := [[c] + lines[0]] + lines[1..];
    if |lines| == 1 {
      assert l == [[c] + lines[0]];
    } else {
      var init := lines[..|lines| - 1];
      var last := lines[|lines| - 1];
      JoinConsChar(c, init);
      assert l[..|l| - 1] == [[c] + init[0]] + init[1..];
      assert l[|l| - 1] == last;
      var j := Join(init);
      assert Join(l) == ([c] + j) + "\n" + last;
      assert Join(lines) == j + "\n" + last;
    }
  }

  lemma {:induction false} SplitLine(x: string)
    requires '\n' !in x
    ensures Split(x) == [x]
  {
    if x != [] {
      SplitLine(x[1..]);
      assert x == [x[0]] + x[1..];
    }
  }

  lemma {:induction false} SplitCons(x: string, y: string)
    requires '\n' !in x
    ensures Split(x + "\n" + y) == [x] + Split(y)
  {
    if x == [] {
      assert x + "\n" + y == "\n" + y;
      assert ("\n" + y)[1..] == y;
    } else {
      SplitCons(x[1..], y);
      assert (x + "\n" + y)[1..] == x[1..] + "\n" + y;
      assert x == [x[0]] + x[1..];
    }
  }

  /** Splitting the join of newline-free lines gives the lines back. */
  lemma {:induction false} SplitJoin(lines: seq<string>)
    requires |lines| >= 1 && NoNewlines(lines)
    ensures Split(Join(lines)) == lines
    decreases |lines|
  {
    if |lines| == 1 {
      SplitLine(lines[0]);
    } else {
      var rest := lines[1..];
      assert lines == [lines[0]] + rest;
      JoinCons(lines[0], rest);
      SplitCons(lines[0], Join(rest));
      SplitJoin(rest);
    }
  }

  /** The budget a chunk's lines use: each line's length plus one for its newline. */
  function Charge(chunk: seq<string>): int
  {
    if chunk == [] then 0 else Charge(chunk[..|chunk| - 1]) + |chunk[|chunk| - 1]| + 1
  }

  /** A non-empty chunk's text is one character shorter than its charge. */
  lemma {:induction false} ChargeIsLength(chunk: seq<string>)
    requires chunk != []
    ensures |Join(chunk)| + 1 == Charge(chunk)
  {
    if |chunk| > 1 {
      ChargeIsLength(chunk[..|chunk| - 1]);
    }
  }

  /** The loop's state: the closed chunks, the open one and its charge. */
  datatype Packing = Packing(done: seq<seq<string>>, current: seq<string>, size: int)

  /** One iteration of the loop. */
  function Step(st: Packing, line: string, chunkSize: int): Packing
  {
    if st.size + |line| > chunkSize then Packing(st.done + [st.current], [line], |line| + 1)
    else Packing(st.done, st.current + [line], st.size + |line| + 1)
  }

  /** The state after the loop has run over `lines`. */
  function Run(lines: seq<string>, chunkSize: int): Packing
  {
    if lines == [] then Packing([], [], 0)
    else Step(Run(lines[..|lines| - 1], chunkSize), lines[|lines| - 1], chunkSize)
  }

  /** The chunks as lists of lines: the closed ones and, if any, the open one. */
  function Groups(lines: seq<string>, chunkSize: int): seq<seq<string>>
  {
    var st := Run(lines, chunkSize);
    if st.current != [] then st.done + [st.current] else st.done
  }

  function JoinEach(groups: seq<seq<string>>): seq<string>
  {
    seq(|groups|, i requires 0 <= i < |groups| => Join(groups[i]))
  }

  /** The result of `chunk_data`. */
  function Chunks(data: string, chunkSize: int): seq<string>
  {
    JoinEach(Groups(Split(data), chunkSize))
  }

  /** `chunk_data`: the loop over the lines. */
  method ChunkData(data: string, chunkSize: int) returns (chunks: seq<string>)
    ensures chunks == Chunks(data, chunkSize)
  {
    var lines := Split(data);
    chunks := [];
    var currentChunk: seq<string> := [];
    var currentSize := 0;
    for i := 0 to |lines|
      invariant chunks == JoinEach(Run(lines[..i], chunkSize).done)
      invariant currentChunk == Run(lines[..i], chunkSize).current
      invariant currentSize == Run(lines[..i], chunkSize).size
    {
      var line := lines[i];
      RunPrefixStep(lines, i, chunkSize);
      var lineLength := |line|;
      if currentSize + lineLength > chunkSize {
        JoinEachSnoc(Run(lines[..i], chunkSize).done, currentChunk);
        chunks := chunks + [Join(currentChunk)];
        currentChunk := [];
        currentSize := 0;
      }
      currentChunk := currentChunk + [line];
      currentSize := currentSize + lineLength + 1;
    }
    assert lines[..|lines|] == lines;
    if currentChunk != [] {
      JoinEachSnoc(Run(lines, chunkSize).done, currentChunk);
      chunks := chunks + [Join(currentChunk)];
    }
  }

  lemma JoinEachSnoc(groups: seq<seq<string>>, g: seq<string>)
    ensures JoinEach(groups + [g]) == JoinEach(groups) + [Join(g)]
  {
  }

  /** One more line is one more step of the loop. */
  lemma RunPrefixStep(lines: seq<string>, i: nat, chunkSize: int)
    requires i < |lines|
    ensures Run(lines[..i + 1], chunkSize) == Step(Run(lines[..i], chunkSize), lines[i], chunkSize)
  {
    assert lines[..i + 1][..i] == lines[..i];
  }

  /** All lines of the chunks, in order. */
  function Flatten(groups: seq<seq<string>>): seq<string>
  {
    if groups == [] then [] else Flatten(groups[..|groups| - 1]) + groups[|groups| - 1]
  }

  /** The chunk after the `i`th closed one: the next closed one, or the open one. */
  function Next(st: Packing, i: nat): seq<string>
  {
    if i + 1 < |st.done| then st.done[i + 1] else st.current
  }

  /** The closed chunks followed by the open one are the lines seen so far. */
  ghost predicate Covers(st: Packing, lines: seq<string>)
  {
    Flatten(st.done) + st.current == lines
  }

  /** The charge is that of the open chunk, which is empty only before the first line. */
  ghost predicate Shaped(st: Packing, lines: seq<string>)
  {
    && st.size == Charge(st.current)
    && (lines == [] ==> st.done == [] && st.current == [])
    && (lines != [] ==> st.current != [])
  }

  /** Every chunk of two or more lines is within the budget. */
  ghost predicate WithinBudget(st: Packing, chunkSize: int)
  {
    && (forall i | 0 <= i < |st.done| :: |st.done[i]| >= 2 ==> Charge(st.done[i]) <= chunkSize + 1)
    && (|st.current| >= 2 ==> Charge(st.current) <= chunkSize + 1)
  }

  /** The only empty chunk is a first one, closed because the first line alone is over the budget. */
  ghost predicate EmptyOnlyFirst(st: Packing, lines: seq<string>, chunkSize: int)
  {
    && (forall i | 0 <= i < |st.done| :: st.done[i] == [] <==> lines != [] && i == 0 && |lines[0]| > chunkSize)
    && (lines != [] && |lines[0]| > chunkSize ==> st.done != [])
  }

  /** Every closed chunk was closed because the first line of the chunk after it did not fit. */
  ghost predicate Greedy(st: Packing, chunkSize: int)
  {
    forall i | 0 <= i < |st.done| :: Next(st, i) != [] && Charge(st.done[i]) + |Next(st, i)[0]| > chunkSize
  }

  /** What the loop keeps true of its state after the lines `lines`. */
  ghost predicate Inv(st: Packing, lines: seq<string>, chunkSize: int)
  {
    Covers(st, lines) && Shaped(st, lines) && WithinBudget(st, chunkSize)
    && EmptyOnlyFirst(st, lines, chunkSize) && Greedy(st, chunkSize)
  }

  lemma ChargeFacts(current: seq<string>, line: string)
    ensures Charge([line]) == |line| + 1
    ensures Charge(current + [line]) == Charge(current) + |line| + 1
  {
    assert [line][..0] == [];
    assert (current + [line])[..|current|] == current;
  }

  lemma StepCovers(st: Packing, lines: seq<string>, line: string, chunkSize: int)
    requires Covers(st, lines)
    ensures Covers(Step(st, line, chunkSize), lines + [line])
  {
    assert (st.done + [st.current])[..|st.done|] == st.done;
  }

  lemma StepShaped(st: Packing, lines: seq<string>, line: string, chunkSize: int)
    requires Shaped(st, lines)
    ensures Shaped(Step(st, line, chunkSize), lines + [line])
  {
    ChargeFacts(st.current, line);
  }

  lemma StepWithinBudget(st: Packing, lines: seq<string>, line: string, chunkSize: int)
    requires Shaped(st, lines) && WithinBudget(st, chunkSize)
    ensures WithinBudget(Step(st, line, chunkSize), chunkSize)
  {
    ChargeFacts(st.current, line);
  }

  lemma StepEmptyOnlyFirst(st: Packing, lines: seq<string>, line: string, chunkSize: int)
    requires Shaped(st, lines) && EmptyOnlyFirst(st, lines, chunkSize)
    ensures EmptyOnlyFirst(Step(st, line, chunkSize), lines + [line], chunkSize)
  {
    var lines' := lines + [line];
    assert lines'[0] == if lines == [] then line else lines[0];
  }

  lemma StepGreedy(st: Packing, lines: seq<string>, line: string, chunkSize: int)
    requires Shaped(st, lines) && EmptyOnlyFirst(st, lines, chunkSize) && Greedy(st, chunkSize)
    ensures Greedy(Step(st, line, chunkSize), chunkSize)
  {
    var st' := Step(st, line, chunkSize);
    if st.size + |line| > chunkSize {
      forall i | 0 <= i < |st'.done|
        ensures Next(st', i) != [] && Charge(st'.done[i]) + |Next(st', i)[0]| > chunkSize
      {
        if i + 1 < |st.done| {
          assert Next(st', i) == Next(st, i);
        } else if i + 1 == |st.done| {
          assert Next(st', i) == st.current == Next(st, i);
        }
      }
    } else {
      forall i | 0 <= i < |st'.done|
        ensures Next(st', i) != [] && Charge(st'.done[i]) + |Next(st', i)[0]| > chunkSize
      {
        assert Next(st, i) != [];
        if i + 1 == |st.done| {
          assert Next(st', i)[0] == Next(st, i)[0];
        }
      }
    }
  }

  lemma StepInv(st: Packing, lines: seq<string>, line: string, chunkSize: int)
    requires Inv(st, lines, chunkSize)
    ensures Inv(Step(st, line, chunkSize), lines + [line], chunkSize)
  {
    StepCovers(st, lines, line, chunkSize);
    StepShaped(st, lines, line, chunkSize);
    StepWithinBudget(st, lines, line, chunkSize);
    StepEmptyOnlyFirst(st, lines, line, chunkSize);
    StepGreedy(st, lines, line, chunkSize);
  }

  lemma {:induction false} RunInv(lines: seq<string>, chunkSize: int)
    ensures Inv(Run(lines, chunkSize), lines, chunkSize)
  {
    if lines != [] {
      var init, last := lines[..|lines| - 1], lines[|lines| - 1];
      assert init + [last] == lines;
      RunInv(init, chunkSize);
      var st := Run(init, chunkSize);
      assert Run(lines, chunkSize) == Step(st, last, chunkSize);
      StepInv(st, init, last, chunkSize);
    }
  }

  lemma GroupsOfRun(lines: seq<string>, chunkSize: int)
    ensures Inv(Run(lines, chunkSize), lines, chunkSize)
    ensures var st := Run(lines, chunkSize);
            Groups(lines, chunkSize) == if lines == [] then [] else st.done + [st.current]
  {
    RunInv(lines, chunkSize);
  }

  /** The chunks partition the lines, in order, and there is at least one chunk when there is a line. */
  lemma GroupsPartition(lines: seq<string>, chunkSize: int)
    ensures Flatten(Groups(lines, chunkSize)) == lines
    ensures lines != [] ==> |Groups(lines, chunkSize)| >= 1
  {
    GroupsOfRun(lines, chunkSize);
    var st := Run(lines, chunkSize);
    if lines != [] {
      assert (st.done + [st.current])[..|st.done|] == st.done;
    }
  }

  /** A chunk of two or more lines stays within the budget. */
  lemma GroupsWithinBudget(lines: seq<string>, chunkSize: int)
    ensures forall i | 0 <= i < |Groups(lines, chunkSize)| ::
      |Groups(lines, chunkSize)[i]| >= 2 ==> |Join(Groups(lines, chunkSize)[i])| <= chunkSize
  {
    GroupsOfRun(lines, chunkSize);
    var g := Groups(lines, chunkSize);
    forall i | 0 <= i < |g| && |g[i]| >= 2
      ensures |Join(g[i])| <= chunkSize
    {
      ChargeIsLength(g[i]);
    }
  }

  /** The only empty chunk is a first one, emitted when the first line alone is over the budget. */
  lemma GroupsEmptyOnlyFirst(lines: seq<string>, chunkSize: int)
    ensures forall i | 0 <= i < |Groups(lines, chunkSize)| ::
      Groups(lines, chunkSize)[i] == [] <==> lines != [] && i == 0 && |lines[0]| > chunkSize
    ensures lines != [] && |lines[0]| > chunkSize ==> |Groups(lines, chunkSize)| >= 2
  {
    GroupsOfRun(lines, chunkSize);
  }

  /** Each chunk was closed only because the first line of the next chunk would not fit: the packing is greedy. */
  lemma GroupsGreedy(lines: seq<string>, chunkSize: int)
    ensures forall i | 1 <= i < |Groups(lines, chunkSize)| ::
      Groups(lines, chunkSize)[i] != [] &&
      Charge(Groups(lines, chunkSize)[i - 1]) + |Groups(lines, chunkSize)[i][0]| > chunkSize
  {
    GroupsOfRun(lines, chunkSize);
    if lines != [] {
      GreedyClosed(Run(lines, chunkSize), chunkSize);
    }
  }

  /** The greedy part of the loop's invariant, read on the final list of chunks. */
  lemma GreedyClosed(st: Packing, chunkSize: int)
    requires Greedy(st, chunkSize)
    ensures var g := st.done + [st.current];
      forall i | 1 <= i < |g| :: g[i] != [] && Charge(g[i - 1]) + |g[i][0]| > chunkSize
  {
    var g := st.done + [st.current];
    forall i | 1 <= i < |g|
      ensures g[i] != [] && Charge(g[i - 1]) + |g[i][0]| > chunkSize
    {
      assert g[i] == Next(st, i - 1);
    }
  }

  lemma {:induction false} NewlineMeansSeveralLines(chunk: seq<string>)
    requires NoNewlines(chunk) && '\n' in Join(chunk)
    ensures |chunk| >= 2
  {
  }

  lemma {:induction false} FlattenNoNewlines(groups: seq<seq<string>>, i: nat)
    requires NoNewlines(Flatten(groups)) && i < |groups|
    ensures NoNewlines(groups[i])
  {
    var init := groups[..|groups| - 1];
    if i < |groups| - 1 {
      assert forall k | 0 <= k < |Flatten(init)| :: Flatten(init)[k] == Flatten(groups)[k];
      FlattenNoNewlines(init, i);
    } else {
      assert forall k | 0 <= k < |groups[i]| :: groups[i][k] == Flatten(groups)[|Flatten(init)| + k];
    }
  }

  lemma GroupsNewlineBudget(lines: seq<string>, chunkSize: int)
    requires NoNewlines(lines)
    ensures forall i | 0 <= i < |Groups(lines, chunkSize)| ::
      '\n' in Join(Groups(lines, chunkSize)[i]) ==> |Join(Groups(lines, chunkSize)[i])| <= chunkSize
  {
    var g := Groups(lines, chunkSize);
    GroupsPartition(lines, chunkSize);
    GroupsWithinBudget(lines, chunkSize);
    forall i | 0 <= i < |g| && '\n' in Join(g[i])
      ensures |Join(g[i])| <= chunkSize
    {
      FlattenNoNewlines(g, i);
      NewlineMeansSeveralLines(g[i]);
    }
  }

  /** At least one chunk is returned, even for the empty text. */
  lemma ChunksNonEmpty(data: string, chunkSize: int)
    ensures |Chunks(data, chunkSize)| >= 1
  {
    GroupsPartition(Split(data), chunkSize);
  }

  /** Every chunk longer than the budget is a single line: a chunk holding a newline fits the budget. */
  lemma ChunksWithinBudget(data: string, chunkSize: int)
    ensures forall i | 0 <= i < |Chunks(data, chunkSize)| ::
      '\n' in Chunks(data, chunkSize)[i] ==> |Chunks(data, chunkSize)[i]| <= chunkSize
  {
    SplitNoNewlines(data);
    GroupsNewlineBudget(Split(data), chunkSize);
  }

  lemma {:induction false} JoinAppend(a: seq<string>, b: seq<string>)
    requires a != [] && b != []
    ensures Join(a + b) == Join(a) + "\n" + Join(b)
    decreases |b|
  {
    if |b| == 1 {
      assert (a + b)[..|a|] == a;
    } else {
      var b' := b[..|b| - 1];
      JoinAppend(a, b');
      assert (a + b)[..|a + b| - 1] == a + b';
    }
  }

  /** Joining the chunks of non-empty line lists with newlines joins all their lines. */
  lemma {:induction false} JoinOfJoins(groups: seq<seq<string>>)
    requires forall i | 0 <= i < |groups| :: groups[i] != []
    ensures Join(JoinEach(groups)) == Join(Flatten(groups))
  {
    if |groups| >= 2 {
      var init := groups[..|groups| - 1];
      var last := groups[|groups| - 1];
      JoinOfJoins(init);
      assert JoinEach(groups)[..|groups| - 1] == JoinEach(init);
      FlattenNonEmpty(init);
      JoinAppend(Flatten(init), last);
    } else if |groups| == 1 {
      assert groups[..0] == [];
      assert JoinEach(groups) == [Join(groups[0])];
      assert Flatten(groups) == [] + groups[0] == groups[0];
    }
  }

  lemma {:induction false} FlattenNonEmpty(groups: seq<seq<string>>)
    requires groups != [] && groups[|groups| - 1] != []
    ensures Flatten(groups) != []
  {
  }

  /** The round trip: when the first line fits the budget, joining the chunks with newlines gives the text back. */
  lemma ChunksRoundTrip(data: string, chunkSize: int)
    requires |Split(data)[0]| <= chunkSize
    ensures Join(Chunks(data, chunkSize)) == data
  {
    var lines := Split(data);
    GroupsPartition(lines, chunkSize);
    GroupsEmptyOnlyFirst(lines, chunkSize);
    JoinOfJoins(Groups(lines, chunkSize));
    JoinSplit(data);
  }

  lemma GroupsOverlongShape(lines: seq<string>, chunkSize: int)
    requires lines != [] && |lines[0]| > chunkSize
    ensures var g := Groups(lines, chunkSize);
            |g| >= 2 && g[0] == [] && Flatten(g[1..]) == lines && forall i | 0 <= i < |g[1..]| :: g[1..][i] != []
  {
    var g := Groups(lines, chunkSize);
    GroupsPartition(lines, chunkSize);
    GroupsEmptyOnlyFirst(lines, chunkSize);
    assert g == [[]] + g[1..];
    FlattenSkipsEmptyFirst(g[1..]);
    assert forall i | 0 <= i < |g[1..]| :: g[1..][i] == g[i + 1];
  }

  lemma JoinEachCons(x: seq<string>, rest: seq<seq<string>>)
    ensures JoinEach([x] + rest) == [Join(x)] + JoinEach(rest)
  {
  }

  /** Joining groups whose first is empty and whose others cover `lines` gives a leading newline. */
  lemma EmptyFirstRoundTrip(g: seq<seq<string>>, lines: seq<string>)
    requires |g| >= 2 && g[0] == [] && Flatten(g[1..]) == lines
    requires forall i | 0 <= i < |g[1..]| :: g[1..][i] != []
    ensures Join(JoinEach(g)) == "\n" + Join(lines)
  {
    var rest := g[1..];
    assert g == [[]] + rest;
    JoinOfJoins(rest);
    var je := JoinEach(rest);
    assert |je| >= 1;
    JoinEachCons([], rest);
    assert JoinEach(g) == [""] + je;
    JoinCons("", je);
    assert Join([""] + je) == "\n" + Join(je);
  }

  lemma GroupsRoundTripOverlong(lines: seq<string>, chunkSize: int)
    requires lines != [] && |lines[0]| > chunkSize
    ensures Join(JoinEach(Groups(lines, chunkSize))) == "\n" + Join(lines)
  {
    GroupsOverlongShape(lines, chunkSize);
    EmptyFirstRoundTrip(Groups(lines, chunkSize), lines);
  }

  /** When the first line alone is over the budget, an empty first chunk puts one extra newline in front. */
  lemma ChunksRoundTripOverlong(data: string, chunkSize: int)
    requires |Split(data)[0]| > chunkSize
    ensures Join(Chunks(data, chunkSize)) == "\n" + data
  {
    GroupsRoundTripOverlong(Split(data), chunkSize);
    JoinSplit(data);
  }

  lemma {:induction false} FlattenSkipsEmptyFirst(rest: seq<seq<string>>)
    ensures Flatten([[]] + rest) == Flatten(rest)
  {
    if rest != [] {
      FlattenSkipsEmptyFirst(rest[..|rest| - 1]);
      assert ([[]] + rest)[..|rest|] == [[]] + rest[..|rest| - 1];
    } else {
      assert [[]] + rest == [[]];
      assert ([[]] + rest)[..0] == [];
    }
  }

  /**
   * Five lines of ten characters with a budget of 20: a line charges its length plus one,
   * so a second line never fits (11 + 10 > 20) and every line becomes its own chunk.
   */
  lemma TenCharacterLinesExample()
    ensures var l := "0123456789";
      JoinEach(Groups([l, l, l, l, l], 20)) == [l, l, l, l, l]
  {
    var l := "0123456789";
    var lines := [l, l, l, l, l];
    assert |l| == 10;
    assert lines[..1][..0] == [];
    assert Run(lines[..1], 20) == Packing([], [l], 11);
    assert lines[..2][..1] == lines[..1];
    assert Run(lines[..2], 20) == Packing([[l]], [l], 11);
    assert lines[..3][..2] == lines[..2];
    assert Run(lines[..3], 20) == Packing([[l], [l]], [l], 11);
    assert lines[..4][..3] == lines[..3];
    assert Run(lines[..4], 20) == Packing([[l], [l], [l]], [l], 11);
    assert lines[..4] == lines[..|lines| - 1];
    assert Run(lines, 20) == Packing([[l], [l], [l], [l]], [l], 11);
  }

  /** Two lines of nine characters fit a budget of 20 together (10 + 9 <= 20) and form one chunk. */
  lemma NineCharacterLinesExample()
    ensures var l := "012345678";
      JoinEach(Groups([l, l], 20)) == [l + "\n" + l]
  {
    var l := "012345678";
    assert |l| == 9;
    assert [l, l][..1] == [l] && [l][..0] == [];
    assert Run([l], 20) == Packing([], [l], 10);
    assert Run([l, l], 20) == Packing([], [l, l], 20);
  }
}
